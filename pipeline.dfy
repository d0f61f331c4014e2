/** `execute_piped`: split the line on '|' into stage texts, then for each
    stage create a pipe and fork a child whose stdin is the previous
    stage's pipe and whose stdout is its own pipe (the last stage keeps the
    shell's stdout). Pipes and processes are kept abstract: the model
    computes, per stage, what the child launches and where its descriptors
    point. */
module Pipeline {
  import opened Argv
  import opened Tokenizer
  import opened Redirection
  import opened Launcher

  /** `char *cmds[64]`. */
  const MaxStages: nat := 64

  const StageDelimiters: set<char> := {'|'}

  /** As written: strtok on "|" into the fixed `cmds` array, with no bound
      check, so the code is only defined for lines of at most MaxStages
      stages. */
  method SplitStages(line: string) returns (cmds: array<string>, numCmds: nat)
    requires |Split(line, StageDelimiters)| <= MaxStages
    ensures cmds.Length == MaxStages && numCmds <= MaxStages
    ensures cmds[..numCmds] == Split(line, StageDelimiters)
  {
    cmds := new string[MaxStages](_ => []);
    numCmds := 0;
    ghost var done: seq<string> := [];
    assert line[0..] == line;
    var found, cmd, next := StrTok(line, 0, StageDelimiters);
    while found
      invariant numCmds == |done| <= MaxStages && cmds.Length == MaxStages
      invariant cmds[..numCmds] == done
      invariant next <= |line|
      invariant found ==> Split(line, StageDelimiters) == done + [cmd] + Split(line[next..], StageDelimiters)
      invariant !found ==> Split(line, StageDelimiters) == done
      decreases if found then |line| - next + 1 else 0
    {
      cmds[numCmds] := cmd;
      done := done + [cmd];
      numCmds := numCmds + 1;
      ghost var prev := next;
      found, cmd, next := StrTok(line, next, StageDelimiters);
      assert Split(line, StageDelimiters) == done + Split(line[prev..], StageDelimiters);
    }
  }

  /** `k` copies of "a|". */
  function Repeated(k: nat): (s: string)
    ensures |s| == 2 * k
  {
    if k == 0 then [] else "a|" + Repeated(k - 1)
  }

  lemma {:induction false} SplitRepeated(k: nat)
    ensures |Split(Repeated(k), StageDelimiters)| == k
    decreases k
  {
    if k > 0 {
      var rest := Repeated(k - 1);
      var bar := ['|'];
      SplitRepeated(k - 1);
      assert Repeated(k) == ['a'] + (bar + rest);
      assert NoneIn(['a'], StageDelimiters) && AllIn(bar, StageDelimiters);
      SplitTakesRun(['a'], bar + rest, StageDelimiters);
      SplitSkipsDelimiters(bar, rest, StageDelimiters);
    }
  }

  /** A line the main loop hands to `execute_piped` (it holds '|') whose
      stages do not fit in `cmds`: SplitStages cannot be called on it. */
  lemma StagesOverflow()
    ensures '|' in Repeated(MaxStages + 1)
    ensures |Split(Repeated(MaxStages + 1), StageDelimiters)| > MaxStages
  {
    SplitRepeated(MaxStages + 1);
    assert Repeated(MaxStages + 1)[1] == '|';
  }

  /** Corrected: the same strtok loop, refusing a line with more stages
      than `cmds` holds instead of writing past its end. */
  method SplitStagesChecked(line: string) returns (cmds: array<string>, numCmds: nat, ok: bool)
    ensures cmds.Length == MaxStages && numCmds <= MaxStages
    ensures ok <==> |Split(line, StageDelimiters)| <= MaxStages
    ensures ok ==> cmds[..numCmds] == Split(line, StageDelimiters)
  {
    cmds := new string[MaxStages](_ => []);
    numCmds := 0;
    ghost var done: seq<string> := [];
    assert line[0..] == line;
    var found, cmd, next := StrTok(line, 0, StageDelimiters);
    while found
      invariant numCmds == |done| <= MaxStages && cmds.Length == MaxStages
      invariant cmds[..numCmds] == done
      invariant next <= |line|
      invariant found ==> Split(line, StageDelimiters) == done + [cmd] + Split(line[next..], StageDelimiters)
      invariant !found ==> Split(line, StageDelimiters) == done
      decreases if found then |line| - next + 1 else 0
    {
      if numCmds == MaxStages {
        return cmds, numCmds, false;
      }
      cmds[numCmds] := cmd;
      done := done + [cmd];
      numCmds := numCmds + 1;
      ghost var prev := next;
      found, cmd, next := StrTok(line, next, StageDelimiters);
      assert Split(line, StageDelimiters) == done + Split(line[prev..], StageDelimiters);
    }
    ok := true;
  }

  /** Where stage `i` of `n` reads and writes before its own redirections:
      stdin is fd 0 for the first stage and the read end of pipe `i - 1`
      otherwise; stdout is the write end of pipe `i` except for the last
      stage, which keeps the shell's stdout. */
  function Wiring(i: nat, n: nat): Fds
    requires i < n
  {
    Fds(if i == 0 then Inherited else Pipe(i - 1),
        if i < n - 1 then Pipe(i) else Inherited)
  }

  /** Each pipe joins exactly two neighbouring stages: the only stage that
      reads pipe `k` is the one after the only stage that writes it. */
  lemma PipesJoinNeighbours(n: nat, i: nat, j: nat, k: nat)
    requires i < n && j < n
    requires Wiring(i, n).stdout == Pipe(k) && Wiring(j, n).stdin == Pipe(k)
    ensures k == i && j == i + 1
  {
  }

  /** Every stage but the last writes into a pipe the next stage reads;
      the first reads the shell's stdin and the last writes its stdout. */
  lemma WiringChains(n: nat)
    requires n > 0
    ensures Wiring(0, n).stdin == Inherited && Wiring(n - 1, n).stdout == Inherited
    ensures forall i :: 0 <= i < n - 1 ==> Wiring(i, n).stdout == Wiring(i + 1, n).stdin == Pipe(i)
  {
  }

  /** What the child of one stage launches: its text tokenized, redirected
      on top of the pipe wiring, never in the background (no `&` check and
      no built-ins on this path). */
  function StageSpec(text: string, wiring: Fds, openable: Openable): Launch
  {
    var r := Scan(Terminated(Split(text, Whitespace)), 0, wiring, openable);
    Launch(Words(r.argv), r.io, r.status, false)
  }

  /** All the launches of a piped line, in order; none when the line has
      more stages than `cmds` holds (the corrected behaviour). */
  function PipedSpec(line: string, openable: Openable): seq<Launch>
  {
    var stages := Split(line, StageDelimiters);
    if |stages| > MaxStages then []
    else seq(|stages|, k requires 0 <= k < |stages| => StageSpec(stages[k], Wiring(k, |stages|), openable))
  }

  /** A stage with neither `<` nor `>` reads and writes exactly what the
      pipe wiring gives it. */
  lemma {:induction false} StageWithoutRedirection(text: string, wiring: Fds, openable: Openable)
    requires forall k :: 0 <= k < |Split(text, Whitespace)| ==>
      Split(text, Whitespace)[k] != ">" && Split(text, Whitespace)[k] != "<"
    ensures StageSpec(text, wiring, openable) == Launch(Split(text, Whitespace), wiring, Completed, false)
  {
    var w := Split(text, Whitespace);
    WordsOfTerminated(w);
    ScanWithoutOperators(Terminated(w), wiring, openable);
  }

  /** The child of one stage: tokenize its text into a fresh buffer,
      apply its redirections over the wiring, and exec. */
  method LaunchStage(text: string, wiring: Fds, openable: Openable) returns (launch: Launch)
    ensures launch == StageSpec(text, wiring, openable)
  {
    var args, count := SplitLine(text);
    ghost var buffer := args[..];
    ghost var w := Split(text, Whitespace);
    TerminatedPrefix(buffer, w, count);
    var io', redirect, _ := HandleRedirection(args, wiring, openable);
    ScanExtend(Terminated(w), buffer[count + 1..], 0, wiring, openable);
    ScanWordsExtend(Terminated(w), buffer[count + 1..], wiring, openable);
    launch := Launch(Words(args[..]), io', redirect, false);
  }

  /** The stage loop of `execute_piped`: one pipe and one child per stage,
      with `in_fd` carrying the read end of the previous stage's pipe. */
  method LaunchStages(stages: seq<string>, openable: Openable) returns (launches: seq<Launch>)
    ensures |launches| == |stages|
    ensures forall k :: 0 <= k < |stages| ==>
      launches[k] == StageSpec(stages[k], Wiring(k, |stages|), openable)
  {
    var inFd := Inherited;
    launches := [];
    for i := 0 to |stages|
      invariant |launches| == i
      invariant inFd == if i == 0 then Inherited else Pipe(i - 1)
      invariant forall k :: 0 <= k < i ==> launches[k] == StageSpec(stages[k], Wiring(k, |stages|), openable)
    {
      // pipe(pipefd) creates pipe i; the child dup2s in_fd onto fd 0 and,
      // unless it is the last stage, the pipe's write end onto fd 1
      var io := Fds(inFd, if i < |stages| - 1 then Pipe(i) else Inherited);
      assert io == Wiring(i, |stages|);
      var launch := LaunchStage(stages[i], io, openable);
      launches := launches + [launch];
      // the parent keeps the pipe's read end for the next stage
      inFd := Pipe(i);
    }
  }

  /** `execute_piped`, with the corrected stage split. Always returns 1. */
  method ExecutePiped(line: string, openable: Openable)
    returns (status: int, launches: seq<Launch>)
    ensures status == 1
    ensures launches == PipedSpec(line, openable)
    ensures forall i :: 0 <= i < |launches| ==> !launches[i].background
  {
    status := 1;
    var cmds, numCmds, ok := SplitStagesChecked(line);
    if !ok {
      return 1, [];
    }
    launches := LaunchStages(cmds[..numCmds], openable);
    assert launches == PipedSpec(line, openable);
  }
}
