/** _run_script: run one command line, capture its exit code and both
    output streams, print a diagnostic report when the code is non-zero, and
    either exit with status 2 (die) or hand the captured triple back. */
module Runner {
  import opened Text

  /** What starting a command yields: the process ran and exited with a
      code and its captured output, or starting or waiting for it raised an
      exception (its type, value and traceback object, and the formatted
      traceback). */
  datatype SpawnResult =
    | Exited(code: int, stdout: string, stderr: string)
    | SpawnFailed(excType: string, excValue: string, stackTrace: string, traceback: string)

  /** The observable effects of the installer, in order: a line printed to
      the console, or an attempt to start a process with an argument vector
      (recorded whether or not the start succeeds). */
  datatype Event = Print(text: string) | Spawn(argv: seq<string>)

  /** Whether the installer carries on or has called sys.exit(status). */
  datatype Halt = Continue | Exit(status: int)

  /** The (returncode, stdoutdata, stderrdata) triple _run_script returns. */
  datatype Completed = Completed(code: int, stdout: string, stderr: string)

  /** The argument vector: cli_string.split(' '). */
  function Tokenise(cli: string): seq<string>
  {
    Split(cli, ' ')
  }

  /** Tokenising splits at every single space: one more token than there are
      spaces, no token holds a space, and joining the tokens with ' ' gives
      the command line back. */
  lemma TokeniseRoundTrip(cli: string)
    ensures |Tokenise(cli)| == multiset(cli)[' '] + 1
    ensures forall i :: 0 <= i < |Tokenise(cli)| ==> ' ' !in Tokenise(cli)[i]
    ensures Join(Tokenise(cli), ' ') == cli
  {
    SplitCount(cli, ' ');
    SplitFields(cli, ' ');
    JoinSplit(cli, ' ');
  }

  /** A command line is determined by its tokens: Tokenise is injective. */
  lemma TokeniseInjective(a: string, b: string)
    requires Tokenise(a) == Tokenise(b)
    ensures a == b
  {
    JoinSplit(a, ' ');
    JoinSplit(b, ' ');
  }

  /** The triple after the try block: returncode starts at 1 and the outputs
      empty, and only a spawn that completes overwrites them. */
  function Captured(r: SpawnResult): Completed
  {
    match r
    case Exited(code, out, err) => Completed(code, out, err)
    case SpawnFailed(_, _, _, _) => Completed(1, "", "")
  }

  /** The two messages the except clause records. */
  function ExceptionReport(r: SpawnResult): seq<string>
  {
    match r
    case Exited(_, _, _) => []
    case SpawnFailed(t, v, st, tb) =>
      ["Bug: Exception Type:" + t + ", Exception Instance: " + v
       + ", Stack Trace Object: " + st + "]    ", tb]
  }

  function Tagged(tag: string, pieces: seq<string>): seq<string>
  {
    seq(|pieces|, i requires 0 <= i < |pieces| => tag + pieces[i])
  }

  /** The line with its tag removed (unchanged if it does not carry it). */
  function Untag(tag: string, line: string): string
  {
    if |tag| <= |line| && line[..|tag|] == tag then line[|tag|..] else line
  }

  function Untagged(tag: string, lines: seq<string>): seq<string>
  {
    seq(|lines|, i requires 0 <= i < |lines| => Untag(tag, lines[i]))
  }

  const ReturnCodeTag := "Return code:"
  const StdoutTag := "STDOUT: "
  const StderrTag := "STDERR: "

  /** The messages printed for a failed command, in the order recorded. */
  function Diagnostics(r: SpawnResult): seq<string>
  {
    var c := Captured(r);
    ExceptionReport(r)
    + [ReturnCodeTag + IntToString(c.code)]
    + Tagged(StdoutTag, Split(c.stdout, '\n'))
    + Tagged(StderrTag, Split(c.stderr, '\n'))
  }

  function Prints(msgs: seq<string>): seq<Event>
  {
    seq(|msgs|, i requires 0 <= i < |msgs| => Print(msgs[i]))
  }

  function RunningLine(cli: string): string
  {
    "Running Command: \"" + cli + "\""
  }

  /** Everything one call of _run_script prints and tries to start. */
  function RunTrace(cli: string, spawn: seq<string> -> SpawnResult): seq<Event>
  {
    var r := spawn(Tokenise(cli));
    [Print(RunningLine(cli)), Spawn(Tokenise(cli))]
    + (if Captured(r).code != 0 then Prints(Diagnostics(r)) else [])
  }

  lemma UntagTagged(tag: string, pieces: seq<string>)
    ensures Untagged(tag, Tagged(tag, pieces)) == pieces
  {
  }

  /** The report of a failed command, laid out: after the exception
      messages it gives the exit code, which parses back to the code, then
      one STDOUT line per newline-separated piece of stdout and one STDERR
      line per piece of stderr. */
  lemma DiagnosticsLayout(r: SpawnResult)
    ensures var d, e, c := Diagnostics(r), |ExceptionReport(r)|, Captured(r);
      var n := multiset(c.stdout)['\n'] + 1;
      && |d| == e + 1 + n + multiset(c.stderr)['\n'] + 1
      && d[..e] == ExceptionReport(r)
      && d[e][..|ReturnCodeTag|] == ReturnCodeTag
      && ParseInt(d[e][|ReturnCodeTag|..]) == c.code
      && (forall i :: e < i < |d| ==> d[i][..8] == (if i <= e + n then StdoutTag else StderrTag))
  {
    var c := Captured(r);
    var d, e := Diagnostics(r), |ExceptionReport(r)|;
    var outs, errs := Split(c.stdout, '\n'), Split(c.stderr, '\n');
    var n := |outs|;
    var line := ReturnCodeTag + IntToString(c.code);
    SplitCount(c.stdout, '\n');
    SplitCount(c.stderr, '\n');
    var head := ExceptionReport(r) + [line];
    assert d == head + Tagged(StdoutTag, outs) + Tagged(StderrTag, errs);
    assert d[e] == line;
    assert ParseInt(d[e][|ReturnCodeTag|..]) == c.code by {
      assert line[|ReturnCodeTag|..] == IntToString(c.code);
      IntToStringRoundTrip(c.code);
    }
    TagsLayout(head, outs, errs);
  }

  /** Lines tagged for stdout, then lines tagged for stderr, after a head:
      each line after the head starts with the tag of its stream. */
  lemma TagsLayout(head: seq<string>, outs: seq<string>, errs: seq<string>)
    ensures var d := head + Tagged(StdoutTag, outs) + Tagged(StderrTag, errs);
      forall i :: |head| <= i < |d| ==> d[i][..8] == (if i < |head| + |outs| then StdoutTag else StderrTag)
  {
  }

  /** The report of a failed command loses nothing: stripping the tags from
      its STDOUT and STDERR lines and joining them with newlines recovers
      both captured streams exactly. */
  lemma DiagnosticsRecoverRun(r: SpawnResult)
    ensures var d, e, c := Diagnostics(r), |ExceptionReport(r)|, Captured(r);
      var n := |Split(c.stdout, '\n')|;
      && e + 1 + n <= |d|
      && Join(Untagged(StdoutTag, d[e + 1..e + 1 + n]), '\n') == c.stdout
      && Join(Untagged(StderrTag, d[e + 1 + n..]), '\n') == c.stderr
  {
    var c := Captured(r);
    var d, e := Diagnostics(r), |ExceptionReport(r)|;
    var outs, errs := Split(c.stdout, '\n'), Split(c.stderr, '\n');
    var n := |outs|;
    var tout, terr := Tagged(StdoutTag, outs), Tagged(StderrTag, errs);
    assert d == ExceptionReport(r) + [ReturnCodeTag + IntToString(c.code)] + tout + terr;
    assert d[e + 1..e + 1 + n] == tout;
    assert d[e + 1 + n..] == terr;
    assert Join(Untagged(StdoutTag, tout), '\n') == c.stdout by {
      UntagTagged(StdoutTag, outs);
      JoinSplit(c.stdout, '\n');
    }
    assert Join(Untagged(StderrTag, terr), '\n') == c.stderr by {
      UntagTagged(StderrTag, errs);
      JoinSplit(c.stderr, '\n');
    }
  }

  /** A command that could not be started reads as return code 1 with empty
      output: its report is the two exception messages, "Return code:1", and
      one empty STDOUT and one empty STDERR line. */
  lemma SpawnFailureReport(t: string, v: string, st: string, tb: string)
    ensures var r := SpawnFailed(t, v, st, tb);
      && Captured(r) == Completed(1, "", "")
      && Diagnostics(r) == ExceptionReport(r) + ["Return code:1", "STDOUT: ", "STDERR: "]
  {
    var r := SpawnFailed(t, v, st, tb);
    assert Split("", '\n') == [""];
    assert IntToString(1) == "1";
    assert ReturnCodeTag + "1" == "Return code:1";
    assert StdoutTag + "" == "STDOUT: " && StderrTag + "" == "STDERR: ";
    assert Tagged(StdoutTag, [""]) == ["STDOUT: "];
    assert Tagged(StderrTag, [""]) == ["STDERR: "];
  }

  /** What one call prints and returns: the "Running Command" line and the
      start of the process always; a process that exits is reported with its
      own code and output, a failed start as code 1 with empty output; a
      zero code prints nothing more, and any other code, negative ones
      included, is followed by the full report. */
  lemma RunTraceShape(cli: string, spawn: seq<string> -> SpawnResult)
    ensures var r, t := spawn(Tokenise(cli)), RunTrace(cli, spawn);
      var c := Captured(r);
      && (r.Exited? ==> c == Completed(r.code, r.stdout, r.stderr))
      && (r.SpawnFailed? ==> c == Completed(1, "", ""))
      && |t| >= 2 && t[..2] == [Print(RunningLine(cli)), Spawn(Tokenise(cli))]
      && (c.code == 0 <==> |t| == 2)
      && (c.code != 0 ==> t[2..] == Prints(Diagnostics(r)))
  {
  }

  lemma TaggedStep(tag: string, pieces: seq<string>, i: nat)
    requires i < |pieces|
    ensures Tagged(tag, pieces[..i + 1]) == Tagged(tag, pieces[..i]) + [tag + pieces[i]]
  {
  }

  lemma PrintsStep(msgs: seq<string>, j: nat)
    requires j < |msgs|
    ensures Prints(msgs[..j + 1]) == Prints(msgs[..j]) + [Print(msgs[j])]
  {
  }

  /** One report loop of _run_script: a tagged message for every
      newline-separated piece of the captured text, appended in order. */
  method AppendTagged(messages: seq<string>, tag: string, text: string) returns (r: seq<string>)
    ensures r == messages + Tagged(tag, Split(text, '\n'))
  {
    r := messages;
    var pieces := Split(text, '\n');
    var i := 0;
    while i < |pieces|
      invariant i <= |pieces|
      invariant r == messages + Tagged(tag, pieces[..i])
    {
      TaggedStep(tag, pieces, i);
      r := r + [tag + pieces[i]];
      i := i + 1;
    }
    assert pieces[..i] == pieces;
  }

  /** The print loop of _run_script: every message printed, in order. */
  method PrintAll(trace: seq<Event>, messages: seq<string>) returns (r: seq<Event>)
    ensures r == trace + Prints(messages)
  {
    r := trace;
    var j := 0;
    while j < |messages|
      invariant j <= |messages|
      invariant r == trace + Prints(messages[..j])
    {
      PrintsStep(messages, j);
      r := r + [Print(messages[j])];
      j := j + 1;
    }
    assert messages[..j] == messages;
  }

  /** _run_script(cli_string, die): runs the tokenised command through the
      spawn oracle, records a failed spawn as data, and on any non-zero code
      prints the report, then exits with 2 when die is set. */
  method RunScript(cli: string, die: bool, spawn: seq<string> -> SpawnResult)
    returns (result: Completed, halt: Halt, trace: seq<Event>)
    ensures result == Captured(spawn(Tokenise(cli)))
    ensures trace == RunTrace(cli, spawn)
    ensures halt == if result.code != 0 && die then Exit(2) else Continue
  {
    var messages: seq<string> := [];
    var stdoutdata: string := "";
    var stderrdata: string := "";
    var returncode := 1;
    trace := [Print(RunningLine(cli))];
    var argv := Tokenise(cli);
    trace := trace + [Spawn(argv)];
    var outcome := spawn(argv);
    match outcome {
      case Exited(code, out, err) =>
        stdoutdata, stderrdata := out, err;
        returncode := code;
      case SpawnFailed(_, _, _, _) =>
        messages := messages + ExceptionReport(outcome);
    }
    assert messages == ExceptionReport(outcome);
    assert Completed(returncode, stdoutdata, stderrdata) == Captured(outcome);
    halt := Continue;
    if returncode != 0 {
      messages := messages + [ReturnCodeTag + IntToString(returncode)];
      messages := AppendTagged(messages, StdoutTag, stdoutdata);
      messages := AppendTagged(messages, StderrTag, stderrdata);
      trace := PrintAll(trace, messages);
      if die {
        halt := Exit(2);
      }
    }
    result := Completed(returncode, stdoutdata, stderrdata);
  }
}
