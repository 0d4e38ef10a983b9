/** The requirements-file half of check_pip3: which lines of
    pip_requirements.txt are kept, and how a kept line is cut down to the
    package name that is handed to "pip3 show". */
module Requirements {
  import opened Text

  /** A stripped line is kept unless it is empty or a '#' comment. */
  predicate IsRequirementLine(t: string)
  {
    t != [] && t[0] != '#'
  }

  /** The kept lines, stripped, in file order. */
  function KeptLines(lines: seq<string>): (r: seq<string>)
    ensures |r| <= |lines|
  {
    if lines == [] then []
    else
      var t := Strip(lines[0]);
      (if IsRequirementLine(t) then [t] else []) + KeptLines(lines[1..])
  }

  /** Filtering is done line by line: the kept lines of a concatenation are
      the kept lines of each part, in order. */
  lemma {:induction false} KeptLinesAppend(a: seq<string>, b: seq<string>)
    ensures KeptLines(a + b) == KeptLines(a) + KeptLines(b)
  {
    if a != [] {
      KeptLinesAppend(a[1..], b);
      assert (a + b)[0] == a[0] && (a + b)[1..] == a[1..] + b;
    } else {
      assert a + b == b;
    }
  }

  /** Every kept line is non-empty, not a comment, and the stripped form of
      some line of the file. */
  lemma {:induction false} KeptLinesSound(lines: seq<string>, t: string)
    requires t in KeptLines(lines)
    ensures IsRequirementLine(t)
    ensures exists i :: 0 <= i < |lines| && Strip(lines[i]) == t
  {
    var t0 := Strip(lines[0]);
    if !(IsRequirementLine(t0) && t == t0) {
      assert t in KeptLines(lines[1..]);
      KeptLinesSound(lines[1..], t);
      var i :| 0 <= i < |lines[1..]| && Strip(lines[1..][i]) == t;
      assert lines[i + 1] == lines[1..][i];
    }
  }

  /** Every line whose stripped form is non-empty and not a comment is kept. */
  lemma {:induction false} KeptLinesComplete(lines: seq<string>, i: nat)
    requires i < |lines| && IsRequirementLine(Strip(lines[i]))
    ensures Strip(lines[i]) in KeptLines(lines)
  {
    if i > 0 {
      KeptLinesComplete(lines[1..], i - 1);
      assert lines[1..][i - 1] == lines[i];
    }
  }

  /** The lines check_pip3 collects from the raw file text. */
  function RequirementLines(raw: string): seq<string>
  {
    KeptLines(FileLines(UniversalNewlines(raw)))
  }

  /** A kept line never spans two lines of the file: stripping removes the
      line terminator and no other newline is left in it. */
  lemma KeptLineIsOneLine(raw: string, t: string)
    requires t in RequirementLines(raw)
    ensures '\n' !in t && '\r' !in t
  {
    var text := UniversalNewlines(raw);
    var lines := FileLines(text);
    KeptLinesSound(lines, t);
    var i :| 0 <= i < |lines| && Strip(lines[i]) == t;
    FileLinesShape(text, i);
    FileLinesFrom(text, i);
    StripOneLine(lines[i]);
  }

  /** Stripping a line that holds a newline at most as its last character,
      and no carriage return, leaves neither. */
  lemma StripOneLine(l: string)
    requires forall j :: 0 <= j < |l| - 1 ==> l[j] != '\n'
    requires '\r' !in l
    ensures '\n' !in Strip(l) && '\r' !in Strip(l)
  {
    var t := Strip(l);
    StripShape(l);
    var k := |l| - |StripLeft(l)|;
    forall j | 0 <= j < |t|
      ensures t[j] != '\n' && t[j] != '\r'
    {
      assert t[j] == l[k + j];
      if k + j == |l| - 1 {
        assert j == |t| - 1;
      }
    }
  }

  /** A line produced by readline() holds a newline only as its last character. */
  lemma {:induction false} FileLinesShape(s: string, i: nat)
    requires i < |FileLines(s)|
    ensures forall j :: 0 <= j < |FileLines(s)[i]| - 1 ==> FileLines(s)[i][j] != '\n'
    decreases |s|
  {
    if i > 0 {
      var l := ReadLine(s);
      FileLinesShape(s[|l|..], i - 1);
    } else {
      ReadLineShape(s);
    }
  }

  /** Every line of a text that has no '\r' has none either. */
  lemma {:induction false} FileLinesFrom(s: string, i: nat)
    requires '\r' !in s
    requires i < |FileLines(s)|
    ensures '\r' !in FileLines(s)[i]
    decreases |s|
  {
    var l := ReadLine(s);
    if i > 0 {
      assert forall j :: 0 <= j < |s[|l|..]| ==> s[|l|..][j] == s[|l| + j];
      FileLinesFrom(s[|l|..], i - 1);
    } else {
      assert forall j :: 0 <= j < |l| ==> l[j] == s[j];
    }
  }

  /** Package name of a kept line: line.split('=', 1)[0].split('>', 1)[0]. */
  function PackageName(line: string): string
  {
    Before(Before(line, '='), '>')
  }

  /** The package name is the prefix of the line that holds neither '=' nor
      '>': it stops exactly at the first '=' or '>' of the line, or runs to
      its end. */
  lemma PackageNameShape(line: string)
    ensures var p := PackageName(line);
      && |p| <= |line| && p == line[..|p|]
      && '=' !in p && '>' !in p
      && (|p| < |line| ==> line[|p|] == '=' || line[|p|] == '>')
  {
  }

  /** The command check_pip3 runs for one package. */
  function PipCommand(package: string): string
  {
    "pip3 show " + package
  }

  /** The argument vector of that command: "pip3", "show", then the package
      name split at its own spaces (a name with a space becomes two
      arguments, a trailing space an empty one). */
  lemma PipCommandArgv(package: string)
    ensures Split(PipCommand(package), ' ') == ["pip3", "show"] + Split(package, ' ')
  {
    var argv := Split("pip3" + ([' '] + ("show" + ([' '] + package))), ' ');
    assert argv == ["pip3", "show"] + Split(package, ' ') by {
      TwoWords("pip3", "show", package);
    }
    assert PipCommand(package) == "pip3" + ([' '] + ("show" + ([' '] + package))) by {
      assert "pip3 show " == "pip3" + ([' '] + ("show" + [' ']));
    }
  }

  lemma TwoWords(a: string, b: string, rest: string)
    requires ' ' !in a && ' ' !in b
    ensures Split(a + ([' '] + (b + ([' '] + rest))), ' ') == [a, b] + Split(rest, ' ')
  {
    SplitWord(b, rest, ' ');
    SplitWord(a, b + ([' '] + rest), ' ');
  }

  /** Reads the requirements text the way check_pip3 does: readline() until
      it returns "" at end of file, strip each line, keep the non-empty
      non-comment ones. The text not yet read stands for the file position. */
  method ReadRequirements(raw: string) returns (lines: seq<string>)
    ensures lines == RequirementLines(raw)
  {
    var text := UniversalNewlines(raw);
    var unread := text;
    ghost var seen: seq<string> := [];
    lines := [];
    while unread != []
      invariant FileLines(text) == seen + FileLines(unread)
      invariant lines == KeptLines(seen)
      decreases |unread|
    {
      var line := ReadLine(unread);
      ReadStep(text, seen, unread);
      unread := unread[|line|..];
      var stripped := Strip(line);
      if (stripped != [] && stripped[0] == '#') || stripped == [] {
      } else {
        lines := lines + [stripped];
      }
      seen := seen + [line];
    }
    assert seen + [] == seen;
  }

  /** One readline() moves a line from the unread text to the lines seen,
      and the kept lines grow by that line when it is kept. */
  lemma ReadStep(text: string, seen: seq<string>, unread: string)
    requires unread != []
    requires FileLines(text) == seen + FileLines(unread)
    ensures var line := ReadLine(unread);
      && FileLines(text) == (seen + [line]) + FileLines(unread[|line|..])
      && KeptLines(seen + [line])
         == KeptLines(seen) + (if IsRequirementLine(Strip(line)) then [Strip(line)] else [])
  {
    var line := ReadLine(unread);
    var rest := FileLines(unread[|line|..]);
    assert FileLines(unread) == [line] + rest;
    assert seen + ([line] + rest) == (seen + [line]) + rest;
    KeptLinesAppend(seen, [line]);
    assert [line][1..] == [];
  }
}
