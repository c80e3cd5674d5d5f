/** How a button's command line becomes a child process (`launch` in
    tools.go): field codes are cut off, the line is split on single
    spaces, every token holding `=` is an environment assignment, and the
    token after the last assignment is the executable. */
module Launcher {
  import opened Wrappers
  import opened GoStrings

  /** What `exec.Command` is given: extra environment entries, the program
      and its arguments. */
  datatype Command = Command(envVars: seq<string>, exe: string, args: seq<string>)

  /** The two places where `launch` panics with an out-of-range slice or index. */
  datatype PanicSite =
    | CutBeforeStart     // `command[:cutAt-1]` with the first `%` at index 0
    | MissingExecutable  // `elements[cmdIdx]` with the last assignment as the last token

  datatype Outcome = Start(cmd: Command) | Panic(site: PanicSite)

  /** `strings.Contains(item, "=")`: some position of the token holds `=`. */
  function IsAssignment(token: string): (r: bool)
    ensures r <==> exists i :: 0 <= i < |token| && token[i] == '='
  {
    '=' in token
  }

  /** The command line with the first `%` and the character before it
      removed, together with everything after; `None` where Go's slice
      bound would be -1. */
  function TrimFieldCodes(command: string): (r: Option<string>)
    ensures '%' !in command ==> r == Some(command)
    ensures r == None <==> IndexOf(command, '%') == 0
    ensures r.Some? ==> '%' !in r.value && r.value <= command
    ensures r.Some? && '%' in command ==> |r.value| == IndexOf(command, '%') - 1
  {
    var cutAt := IndexOf(command, '%');
    if cutAt == -1 then Some(command)
    else if cutAt == 0 then None
    else Some(command[..cutAt - 1])
  }

  /** The assignment tokens of `ts`, in order. */
  function Assignments(ts: seq<string>): (r: seq<string>)
    ensures |r| <= |ts|
    ensures forall i :: 0 <= i < |r| ==> IsAssignment(r[i])
    ensures r == [] <==> forall i :: 0 <= i < |ts| ==> !IsAssignment(ts[i])
  {
    if ts == [] then []
    else
      var last := ts[|ts| - 1];
      Assignments(ts[..|ts| - 1]) + (if IsAssignment(last) then [last] else [])
  }

  /** No assignment is lost and none is invented: each assignment token
      of `ts` is exported, and nothing appears more often than in `ts`. */
  lemma {:induction false} AssignmentsComplete(ts: seq<string>)
    ensures forall i :: 0 <= i < |ts| && IsAssignment(ts[i]) ==> ts[i] in Assignments(ts)
    ensures multiset(Assignments(ts)) <= multiset(ts)
  {
    if ts != [] {
      var init := ts[..|ts| - 1];
      AssignmentsComplete(init);
      assert ts == init + [ts[|ts| - 1]];
      forall i | 0 <= i < |ts| - 1 && IsAssignment(ts[i])
        ensures ts[i] in Assignments(ts)
      {
        assert ts[i] == init[i];
      }
    }
  }

  /** Index of the last assignment token of `ts`, or -1 when there is none. */
  function LastAssignment(ts: seq<string>): (r: int)
    ensures -1 <= r < |ts|
    ensures r == -1 <==> forall i :: 0 <= i < |ts| ==> !IsAssignment(ts[i])
    ensures 0 <= r ==> IsAssignment(ts[r])
    ensures forall i :: r < i < |ts| ==> !IsAssignment(ts[i])
  {
    if ts == [] then -1
    else if IsAssignment(ts[|ts| - 1]) then |ts| - 1
    else LastAssignment(ts[..|ts| - 1])
  }

  /** Reference definition of what `launch` does with a command line: the
      executable sits right after the last assignment (index 0 when there
      is no assignment). */
  function ParseCommand(command: string): (r: Outcome)
    ensures r == Panic(CutBeforeStart) <==> IndexOf(command, '%') == 0
  {
    match TrimFieldCodes(command)
    case None => Panic(CutBeforeStart)
    case Some(line) => ParseLine(line)
  }

  /** What `launch` does with a line that holds no field code any more. */
  function ParseLine(line: string): (r: Outcome)
    ensures r.Panic? ==> r.site == MissingExecutable
    ensures r.Start? ==> !IsAssignment(r.cmd.exe)
  {
    var elements := Split(line, ' ');
    var cmdIdx := LastAssignment(elements) + 1;
    if cmdIdx < |elements| then
      Start(Command(Assignments(elements), elements[cmdIdx], elements[cmdIdx + 1..]))
    else
      Panic(MissingExecutable)
  }

  /** The tokens `launch` works on: the trimmed line split on single spaces. */
  function Tokens(command: string): seq<string>
    requires TrimFieldCodes(command).Some?
  {
    Split(TrimFieldCodes(command).value, ' ')
  }

  /** `launch` as the source runs it: count the `=` signs, and only when
      there are some scan the tokens, collecting every assignment and
      remembering the index of the last one. */
  method Launch(command: string) returns (r: Outcome)
    ensures r == ParseCommand(command)
  {
    var line := command;
    if '%' in line {
      var cutAt := IndexOf(line, '%');
      if cutAt != -1 {
        if cutAt - 1 < 0 {
          return Panic(CutBeforeStart);
        }
        line := line[..cutAt - 1];
      }
    }
    assert TrimFieldCodes(command) == Some(line);
    r := LaunchLine(line);
  }

  /** The part of `launch` after the cut. */
  method LaunchLine(line: string) returns (r: Outcome)
    ensures r == ParseLine(line)
  {
    var elements := Split(line, ' ');
    var envVarsNum := Count(line, '=');
    var envVars: seq<string> := [];
    var cmdIdx := 0;
    CountedAssignments(line);
    if envVarsNum > 0 {
      var lastEnvVarIdx;
      envVars, lastEnvVarIdx := ScanAssignments(elements);
      cmdIdx := lastEnvVarIdx + 1;
    }
    assert envVars == Assignments(elements) && cmdIdx == LastAssignment(elements) + 1;
    if cmdIdx >= |elements| {
      return Panic(MissingExecutable);
    }
    r := Start(Command(envVars, elements[cmdIdx], elements[cmdIdx + 1..]));
  }

  /** The loop of `launch`: every token holding `=` is appended to the
      assignments and its index remembered. */
  method ScanAssignments(elements: seq<string>) returns (envVars: seq<string>, lastEnvVarIdx: nat)
    ensures envVars == Assignments(elements)
    ensures lastEnvVarIdx == if LastAssignment(elements) == -1 then 0 else LastAssignment(elements)
  {
    envVars := [];
    lastEnvVarIdx := 0;
    for idx := 0 to |elements|
      invariant envVars == Assignments(elements[..idx])
      invariant lastEnvVarIdx == if LastAssignment(elements[..idx]) == -1 then 0 else LastAssignment(elements[..idx])
    {
      ScanStep(elements, idx);
      if '=' in elements[idx] {
        lastEnvVarIdx := idx;
        envVars := envVars + [elements[idx]];
      }
    }
    assert elements[..|elements|] == elements;
  }

  /** One more token scanned by the loop of `Launch`. */
  lemma ScanStep(ts: seq<string>, idx: nat)
    requires idx < |ts|
    ensures Assignments(ts[..idx + 1]) == Assignments(ts[..idx]) + (if IsAssignment(ts[idx]) then [ts[idx]] else [])
    ensures LastAssignment(ts[..idx + 1]) == if IsAssignment(ts[idx]) then idx else LastAssignment(ts[..idx])
  {
    assert ts[..idx + 1][..idx] == ts[..idx];
  }

  /** `strings.Count(command, "=") > 0` exactly when some token is an
      assignment, since splitting on spaces loses no `=`. */
  lemma CountedAssignments(line: string)
    ensures Count(line, '=') > 0 <==> LastAssignment(Split(line, ' ')) >= 0
    ensures Count(line, '=') == 0 ==> Assignments(Split(line, ' ')) == []
  {
    SplitKeeps(line, ' ', '=');
  }

  /** Without any `=`, nothing is exported, the first token is the
      executable and the remaining tokens are its arguments; this never
      panics once the cut succeeded. */
  lemma ParseWithoutAssignments(command: string)
    requires TrimFieldCodes(command).Some? && '=' !in TrimFieldCodes(command).value
    ensures ParseCommand(command) == Start(Command([], Tokens(command)[0], Tokens(command)[1..]))
  {
    CountedAssignments(TrimFieldCodes(command).value);
  }

  /** Tokens are cut at every single space, so two spaces in a row
      leave an empty token, which becomes an empty argument. */
  lemma DoubleSpaceEmptyToken(line: string, exe: string, rest: string)
    requires line == exe + "  " + rest
    requires exe != [] && ' ' !in exe && '=' !in exe && '=' !in rest
    ensures ParseLine(line) == Start(Command([], exe, [""] + Split(rest, ' ')))
  {
    DoubleSpaceTokens(exe, rest);
    var ts := Split(line, ' ');
    assert ts[0] == exe && ts[1..] == [""] + Split(rest, ' ');
    assert '=' !in line;
    LineWithoutAssignments(line);
  }

  /** A line without `=`: the first token runs with the others as its
      arguments. */
  lemma LineWithoutAssignments(line: string)
    requires '=' !in line
    ensures ParseLine(line) == Start(Command([], Split(line, ' ')[0], Split(line, ' ')[1..]))
  {
    CountedAssignments(line);
  }

  /** Two spaces after the first token give an empty second token. */
  lemma DoubleSpaceTokens(exe: string, rest: string)
    requires ' ' !in exe
    ensures Split(exe + "  " + rest, ' ') == [exe, ""] + Split(rest, ' ')
  {
    var tail := [' '] + rest;
    assert exe + "  " + rest == exe + [' '] + tail;
    SplitPrefix(exe, tail, ' ');
    assert tail[0] == ' ' && tail[1..] == rest;
    assert Split(tail, ' ') == [""] + Split(rest, ' ');
  }

  /** A started command: every assignment token, wherever it sits, is
      exported in order; the executable is the token right after the last
      assignment (the first token when there is none); the rest of the line
      are the arguments, and neither they nor the executable hold `=`. */
  lemma ParseStart(command: string)
    requires ParseCommand(command).Start?
    ensures TrimFieldCodes(command).Some?
    ensures var ts := Tokens(command); var c := ParseCommand(command).cmd;
      var k := |ts| - |c.args| - 1;
      && 0 <= k && ts[k] == c.exe && ts[k + 1..] == c.args
      && (k == 0 <==> c.envVars == [])
      && (0 < k ==> IsAssignment(ts[k - 1]))
      && c.envVars == Assignments(ts)
    ensures var c := ParseCommand(command).cmd;
      !IsAssignment(c.exe) && forall i :: 0 <= i < |c.args| ==> !IsAssignment(c.args[i])
  {
    var line := TrimFieldCodes(command).value;
    var ts := Split(line, ' ');
    var last := LastAssignment(ts);
    assert ParseCommand(command) == ParseLine(line);
    var c := ParseCommand(command).cmd;
    assert c == Command(Assignments(ts), ts[last + 1], ts[last + 2..]);
    assert |c.args| == |ts| - last - 2;
  }

  /** `launch` panics exactly when the first `%` opens the line, or when
      the last token of the trimmed line is an assignment (then there is
      no token after the last assignment). */
  lemma PanicsIff(command: string)
    ensures ParseCommand(command) == Panic(CutBeforeStart) <==> IndexOf(command, '%') == 0
    ensures TrimFieldCodes(command).Some? ==>
      (ParseCommand(command) == Panic(MissingExecutable) <==> IsAssignment(Tokens(command)[|Tokens(command)| - 1]))
  {
  }

  /** The shape of the worked example: leading assignments, an
      executable, one argument and a trailing field code. The assignments
      are exported, the field code and the space before it are dropped. */
  lemma ParseLeadingAssignments(command: string, a: string, b: string, exe: string, arg: string, code: string)
    requires command == a + " " + b + " " + exe + " " + arg + " %" + code
    requires IsAssignment(a) && IsAssignment(b) && !IsAssignment(exe) && !IsAssignment(arg)
    requires ' ' !in a && ' ' !in b && ' ' !in exe && ' ' !in arg
    requires '%' !in a && '%' !in b && '%' !in exe && '%' !in arg
    ensures ParseCommand(command) == Start(Command([a, b], exe, [arg]))
  {
    var line := a + " " + b + " " + exe + " " + arg;
    SplitFour(a, b, exe, arg);
    TrimTrailingFieldCode(line, code);
    var words := [a, b, exe, arg];
    AssignmentsSplit(words, 2);
    assert words[..2] == [a, b] && words[3..] == [arg];
  }

  /** Four space-free, `%`-free words joined by single spaces split back
      into those words. */
  lemma SplitFour(a: string, b: string, c: string, d: string)
    requires ' ' !in a && ' ' !in b && ' ' !in c && ' ' !in d
    requires '%' !in a && '%' !in b && '%' !in c && '%' !in d
    ensures Split(a + " " + b + " " + c + " " + d, ' ') == [a, b, c, d]
    ensures '%' !in a + " " + b + " " + c + " " + d
  {
    JoinFour(a, b, c, d);
    SplitJoin([a, b, c, d], ' ');
  }

  lemma JoinFour(a: string, b: string, c: string, d: string)
    requires '%' !in a && '%' !in b && '%' !in c && '%' !in d
    ensures Join([a, b, c, d], ' ') == a + " " + b + " " + c + " " + d
    ensures '%' !in a + " " + b + " " + c + " " + d
  {
    var words := [a, b, c, d];
    assert words[1..] == [b, c, d] && words[1..][1..] == [c, d] && words[1..][1..][1..] == [d];
    assert Join([c, d], ' ') == c + [' '] + d;
    assert Join([b, c, d], ' ') == b + [' '] + (c + [' '] + d);
    assert Join(words, ' ') == a + [' '] + (b + [' '] + (c + [' '] + d));
    assert " " == [' '];
  }

  /** The worked example itself: `FOO=1 BAR=2 mycommand --flag %U`. */
  lemma ParseExample(command: string)
    requires command == "FOO=1 BAR=2 mycommand --flag %U"
    ensures ParseCommand(command) == Start(Command(["FOO=1", "BAR=2"], "mycommand", ["--flag"]))
  {
    ExampleText(command);
    ExampleWords("FOO=1", "BAR=2", "mycommand", "--flag");
    ParseLeadingAssignments(command, "FOO=1", "BAR=2", "mycommand", "--flag", "U");
  }

  lemma ExampleText(command: string)
    requires command == "FOO=1 BAR=2 mycommand --flag %U"
    ensures command == "FOO=1" + " " + "BAR=2" + " " + "mycommand" + " " + "--flag" + " %" + "U"
  {
  }

  lemma ExampleWords(a: string, b: string, exe: string, arg: string)
    requires a == "FOO=1" && b == "BAR=2" && exe == "mycommand" && arg == "--flag"
    ensures IsAssignment(a) && IsAssignment(b) && !IsAssignment(exe) && !IsAssignment(arg)
    ensures ' ' !in a && ' ' !in b && ' ' !in exe && ' ' !in arg
    ensures '%' !in a && '%' !in b && '%' !in exe && '%' !in arg
  {
  }

  /** A trailing field code after a space is removed together with the
      space. */
  lemma TrimTrailingFieldCode(line: string, code: string)
    requires '%' !in line
    ensures TrimFieldCodes(line + " %" + code) == Some(line)
  {
    var command := line + " %" + code;
    assert command == (line + " ") + ['%'] + code;
    IndexOfAfter(line + " ", code, '%');
    assert command[..|line|] == line;
  }

  predicate AllAssignments(ts: seq<string>) {
    forall i :: 0 <= i < |ts| ==> IsAssignment(ts[i])
  }

  /** Number of assignment tokens at the start of `ts`. */
  function LeadingAssignments(ts: seq<string>): (r: nat)
    ensures r <= |ts|
    ensures forall i :: 0 <= i < r ==> IsAssignment(ts[i])
    ensures r < |ts| ==> !IsAssignment(ts[r])
  {
    if ts == [] || !IsAssignment(ts[0]) then 0 else 1 + LeadingAssignments(ts[1..])
  }

  /** The evidently intended reading of "prepended env variables": only
      the assignments before the executable are exported, and everything
      after it, `=` or not, is an argument. */
  function ParsePrepended(line: string): (r: Outcome)
    ensures r.Panic? <==> AllAssignments(Split(line, ' '))
    ensures r.Panic? ==> r.site == MissingExecutable
    ensures r.Start? ==>
      && Split(line, ' ') == r.cmd.envVars + [r.cmd.exe] + r.cmd.args
      && (forall i :: 0 <= i < |r.cmd.envVars| ==> IsAssignment(r.cmd.envVars[i]))
      && !IsAssignment(r.cmd.exe)
  {
    var elements := Split(line, ' ');
    var k := LeadingAssignments(elements);
    if k < |elements| then
      assert elements == elements[..k] + [elements[k]] + elements[k + 1..];
      assert forall i :: 0 <= i < k ==> elements[..k][i] == elements[i];
      Start(Command(elements[..k], elements[k], elements[k + 1..]))
    else
      Panic(MissingExecutable)
  }

  /** `launch` with the corrected token scan. */
  function ParseCommandPrepended(command: string): (r: Outcome)
    ensures r == Panic(CutBeforeStart) <==> IndexOf(command, '%') == 0
    ensures r.Start? ==> ParseCommand(command).Start? || ParseCommand(command) == Panic(MissingExecutable)
    ensures TrimFieldCodes(command).Some? && OnlyLeading(Tokens(command)) ==> r == ParseCommand(command)
  {
    match TrimFieldCodes(command)
    case None => Panic(CutBeforeStart)
    case Some(line) =>
      if OnlyLeading(Split(line, ' ')) then PrependedAgrees(line); ParsePrepended(line)
      else ParsePrepended(line)
  }

  /** Assignments that all come before the first other token. */
  predicate OnlyLeading(ts: seq<string>) {
    forall i, j :: 0 <= i < j < |ts| && !IsAssignment(ts[i]) ==> !IsAssignment(ts[j])
  }

  /** When no assignment follows the executable, the corrected scan and
      the one in the source agree. */
  lemma PrependedAgrees(line: string)
    requires OnlyLeading(Split(line, ' '))
    ensures ParsePrepended(line) == ParseLine(line)
  {
    var ts := Split(line, ' ');
    AssignmentsSplit(ts, LeadingAssignments(ts));
  }

  /** Assignments filling exactly the first `k` tokens. */
  lemma {:induction false} AssignmentsSplit(ts: seq<string>, k: nat)
    requires k <= |ts|
    requires forall i :: 0 <= i < k ==> IsAssignment(ts[i])
    requires forall i :: k <= i < |ts| ==> !IsAssignment(ts[i])
    ensures Assignments(ts) == ts[..k]
    ensures LastAssignment(ts) == k - 1
  {
    if ts != [] {
      var init := ts[..|ts| - 1];
      if |ts| == k {
        AssignmentsSplit(init, k - 1);
        assert init[..k - 1] + [ts[|ts| - 1]] == ts[..k];
      } else {
        AssignmentsSplit(init, k);
        assert init[..k] == ts[..k];
      }
    }
  }

  /** An option holding `=` as the last token makes the source panic,
      while the corrected scan passes it to the program. */
  lemma TrailingOptionPanics(exe: string, opt: string)
    requires exe != [] && !IsAssignment(exe) && IsAssignment(opt)
    requires ' ' !in exe && ' ' !in opt && '%' !in exe && '%' !in opt
    ensures ParseCommand(exe + " " + opt) == Panic(MissingExecutable)
    ensures ParseCommandPrepended(exe + " " + opt) == Start(Command([], exe, [opt]))
  {
    var line := exe + " " + opt;
    assert line == exe + [' '] + opt;
    SplitFree(opt, ' ');
    SplitPrefix(exe, opt, ' ');
    assert Split(line, ' ') == [exe, opt];
  }

  /** The input `swaylock --color=000000`. */
  lemma SwaylockColorPanics(command: string)
    requires command == "swaylock --color=000000"
    ensures ParseCommand(command) == Panic(MissingExecutable)
    ensures ParseCommandPrepended(command) == Start(Command([], "swaylock", ["--color=000000"]))
  {
    assert command == "swaylock" + " " + "--color=000000";
    TrailingOptionPanics("swaylock", "--color=000000");
  }

  /** An assignment among the arguments turns the token after it into the
      executable: the real program and the arguments before it are lost,
      and the argument is exported as if it were an environment entry. */
  lemma InnerAssignmentDropsProgram(a: string, exe: string, kv: string, arg: string)
    requires IsAssignment(a) && !IsAssignment(exe) && IsAssignment(kv) && !IsAssignment(arg)
    requires ' ' !in a && ' ' !in exe && ' ' !in kv && ' ' !in arg
    requires '%' !in a && '%' !in exe && '%' !in kv && '%' !in arg
    ensures ParseCommand(a + " " + exe + " " + kv + " " + arg) == Start(Command([a, kv], arg, []))
    ensures ParseCommandPrepended(a + " " + exe + " " + kv + " " + arg) == Start(Command([a], exe, [kv, arg]))
  {
    var line := a + " " + exe + " " + kv + " " + arg;
    SplitFour(a, exe, kv, arg);
    InnerAssignmentTokens([a, exe, kv, arg]);
  }

  /** The token scans on an assignment, a program, an assignment and an
      argument. */
  lemma InnerAssignmentTokens(ts: seq<string>)
    requires |ts| == 4
    requires IsAssignment(ts[0]) && !IsAssignment(ts[1]) && IsAssignment(ts[2]) && !IsAssignment(ts[3])
    ensures Assignments(ts) == [ts[0], ts[2]]
    ensures LastAssignment(ts) == 2
    ensures LeadingAssignments(ts) == 1
  {
    ScanStep(ts, 0);
    ScanStep(ts, 1);
    ScanStep(ts, 2);
    ScanStep(ts, 3);
    assert ts[..0] == [] && ts[..4] == ts;
    assert LeadingAssignments(ts[1..]) == 0;
  }

  /** The environment handed to the child: `None` means "inherit" (Go's
      nil `cmd.Env`); otherwise the inherited entries followed by the
      assignments. */
  function ChildEnv(environ: seq<string>, envVars: seq<string>): (r: Option<seq<string>>)
    ensures r == None <==> envVars == []
  {
    if |envVars| > 0 then Some(environ + envVars) else None
  }

  /** The entries the child actually starts with. */
  function Effective(environ: seq<string>, env: Option<seq<string>>): seq<string> {
    if env.None? then environ else env.value
  }

  /** Whichever branch is taken, the child sees the inherited environment
      followed by the assignments. */
  lemma ChildSeesAssignments(environ: seq<string>, envVars: seq<string>)
    ensures Effective(environ, ChildEnv(environ, envVars)) == environ + envVars
    ensures forall i :: 0 <= i < |environ| ==> Effective(environ, ChildEnv(environ, envVars))[i] == environ[i]
  {
    if envVars == [] {
      assert environ + envVars == environ;
    }
  }
}
