/** The shell's top level: `dispatch` and its three built-ins, and the read
    loop of `main`, which cuts each line at its newline, sends lines holding
    '|' to `execute_piped` and the others through `split_line` and
    `dispatch`, and stops at the first status 0. */
module Shell {
  import opened Argv
  import opened Tokenizer
  import opened Redirection
  import opened Launcher
  import opened Pipeline

  /** The visible effect of a dispatched command. */
  datatype Action =
    | NoAction                // empty line
    | ChangeDir(dir: string)  // `cd dir`: chdir(dir), whose failure is only reported
    | CdMissingArgument       // `cd` alone: usage message
    | ShowHelp                // `help`: the banner
    | Quit                    // `exit`
    | Run(launch: Launch)     // anything else: `execute`

  /** `cd`: changes to its first argument, or complains when there is none;
      either way the shell goes on. */
  function Cd(w: seq<string>): (r: (int, Action))
    requires w != []
    ensures r.0 == 1
    ensures r.1.ChangeDir? <==> |w| > 1
    ensures r.1.ChangeDir? ==> r.1.dir == w[1]
    ensures !r.1.ChangeDir? ==> r.1 == CdMissingArgument
  {
    if |w| == 1 then (1, CdMissingArgument) else (1, ChangeDir(w[1]))
  }

  /** `help`: prints the banner and goes on, whatever its arguments. */
  function Help(w: seq<string>): (r: (int, Action))
    ensures r == (1, ShowHelp)
  {
    (1, ShowHelp)
  }

  /** `shell_exit`: the one status that ends the loop. */
  function ShellExit(w: seq<string>): (r: (int, Action))
    ensures r == (0, Quit)
  {
    (0, Quit)
  }

  /** `dispatch` on a NULL-terminated argv buffer: nothing for an empty
      argv, the built-ins by their first word in the order cd, help, exit,
      and `execute` for anything else. */
  function DispatchSpec(a: seq<Arg>, openable: Openable): (int, Action)
  {
    var w := Words(a);
    if w == [] then (1, NoAction)
    else if w[0] == "cd" then Cd(w)
    else if w[0] == "help" then Help(w)
    else if w[0] == "exit" then ShellExit(w)
    else (1, Run(ExecSpec(a, openable)))
  }

  /** `dispatch` returns 0 exactly for a first word `exit`, and 1 otherwise:
      every other path, `execute` included, keeps the shell running. Trailing
      words, `&` and redirections do not matter to built-ins. */
  lemma {:induction false} DispatchStatus(a: seq<Arg>, openable: Openable)
    ensures DispatchSpec(a, openable).0 == 0 <==> Words(a) != [] && Words(a)[0] == "exit"
    ensures DispatchSpec(a, openable).0 == 0 || DispatchSpec(a, openable).0 == 1
    ensures DispatchSpec(a, openable).1.Run? <==>
      Words(a) != [] && Words(a)[0] !in {"cd", "help", "exit"}
  {
  }

  /** `dispatch` reads nothing past the argv's NULL terminator. */
  lemma DispatchSpecExtend(p: seq<Arg>, t: seq<Arg>, openable: Openable)
    requires Null in p
    ensures DispatchSpec(p + t, openable) == DispatchSpec(p, openable)
  {
    WordsExtend(p, t);
    var w := Words(p);
    if w != [] && w[0] != "cd" && w[0] != "help" && w[0] != "exit" {
      ExecSpecExtend(p, t, openable);
    }
  }

  /** `dispatch`, which hands the buffer to `execute` for external commands. */
  method Dispatch(args: array<Arg>, openable: Openable) returns (status: int, action: Action)
    requires Null in args[..]
    modifies args
    ensures (status, action) == DispatchSpec(old(args[..]), openable)
    ensures args[..] == if action.Run? then StripAmp(old(args[..])).0 else old(args[..])
  {
    if args[0] == Null {
      return 1, NoAction;
    }
    var w := Words(args[..]);
    assert w[0] == args[0].s;
    if args[0] == Str("cd") {
      var r := Cd(w);
      status, action := r.0, r.1;
    } else if args[0] == Str("help") {
      var r := Help(w);
      status, action := r.0, r.1;
    } else if args[0] == Str("exit") {
      var r := ShellExit(w);
      status, action := r.0, r.1;
    } else {
      var launch;
      status, launch := Execute(args, openable);
      action := Run(launch);
    }
  }

  /** `line[strcspn(line, "\n")] = '\0'`: the line up to its first newline. */
  function Truncate(raw: string): (line: string)
    ensures |line| <= |raw| && line == raw[..|line|]
    ensures '\n' !in line
    ensures |line| < |raw| ==> raw[|line|] == '\n'
  {
    if raw == [] || raw[0] == '\n' then [] else [raw[0]] + Truncate(raw[1..])
  }

  /** One turn of the loop: what ran, and the status it produced. */
  datatype Step =
    | Piped(launches: seq<Launch>)
    | Dispatched(status: int, action: Action)

  function Status(s: Step): int
  {
    if s.Piped? then 1 else s.status
  }

  /** The turn for one line as `getline` returned it. */
  function LineSpec(raw: string, openable: Openable): Step
  {
    var line := Truncate(raw);
    if '|' in line then Piped(PipedSpec(line, openable))
    else
      var r := DispatchSpec(Terminated(Split(line, Whitespace)), openable);
      Dispatched(r.0, r.1)
  }

  /** A line that ends the session, described without the dispatcher: no
      '|' before its newline, and `exit` as its first word. */
  predicate IsExitLine(raw: string)
  {
    var line := Truncate(raw);
    '|' !in line && Split(line, Whitespace) != [] && Split(line, Whitespace)[0] == "exit"
  }

  /** Only an exit line yields status 0; every other line yields 1. In
      particular a piped line never ends the session, even `exit | x`. */
  lemma LineStatus(raw: string, openable: Openable)
    ensures Status(LineSpec(raw, openable)) == 0 <==> IsExitLine(raw)
    ensures Status(LineSpec(raw, openable)) == 0 || Status(LineSpec(raw, openable)) == 1
  {
    var line := Truncate(raw);
    if '|' !in line {
      var w := Split(line, Whitespace);
      WordsOfTerminated(w);
      DispatchStatus(Terminated(w), openable);
    }
  }

  /** A piped line bypasses `dispatch`: built-in names and a trailing `&`
      are launched as ordinary programs in the foreground. */
  lemma PipedLineIgnoresBuiltins(raw: string, openable: Openable)
    requires '|' in Truncate(raw)
    ensures LineSpec(raw, openable).Piped?
    ensures forall k :: 0 <= k < |LineSpec(raw, openable).launches| ==>
      !LineSpec(raw, openable).launches[k].background
  {
  }

  /** One turn of the loop, on the line `getline` returned. */
  method ProcessLine(raw: string, openable: Openable) returns (step: Step)
    ensures step == LineSpec(raw, openable)
  {
    var line := Truncate(raw);
    if '|' in line {
      var _, launches := ExecutePiped(line, openable);
      step := Piped(launches);
    } else {
      var args, count := SplitLine(line);
      ghost var w := Split(line, Whitespace);
      ghost var buffer := args[..];
      TerminatedPrefix(buffer, w, count);
      DispatchSpecExtend(Terminated(w), buffer[count + 1..], openable);
      assert args[count] == Null;
      var status, action := Dispatch(args, openable);
      step := Dispatched(status, action);
    }
  }

  /** How the session ended: a status 0 at line `at`, or `getline` failing
      because the input ran out (the shell then exits with a failure). */
  datatype End = Exited(at: nat) | InputFailed

  /** `main`'s loop over the lines the user types. It runs every line up to
      and including the first exit line and stops there. */
  method Session(input: seq<string>, openable: Openable) returns (steps: seq<Step>, end: End)
    ensures |steps| <= |input|
    ensures forall j :: 0 <= j < |steps| ==> steps[j] == LineSpec(input[j], openable)
    ensures end.InputFailed? ==> |steps| == |input| && forall j :: 0 <= j < |input| ==> !IsExitLine(input[j])
    ensures end.Exited? ==>
      && end.at + 1 == |steps| && IsExitLine(input[end.at])
      && forall j :: 0 <= j < end.at ==> !IsExitLine(input[j])
  {
    steps := [];
    var i := 0;
    while true
      invariant i == |steps| <= |input|
      invariant forall j :: 0 <= j < i ==> steps[j] == LineSpec(input[j], openable) && !IsExitLine(input[j])
      decreases |input| - i
    {
      if i == |input| {
        return steps, InputFailed;
      }
      var step := ProcessLine(input[i], openable);
      steps := steps + [step];
      LineStatus(input[i], openable);
      var status := Status(step);
      if status == 0 {
        return steps, Exited(i);
      }
      i := i + 1;
    }
  }
}
