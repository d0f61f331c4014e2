/** `execute`: strip a trailing `&`, fork, and in the child apply the
    redirections and exec. Process creation and exec are not modelled; what
    is recorded is the launch the child performs. */
module Launcher {
  import opened Argv
  import opened Redirection

  /** What one forked child runs: the argv `execvp` receives (empty when
      args[0] is NULL, an exec that fails), where its stdin and stdout point,
      how the redirection scan ended, and whether the parent waits for it. */
  datatype Launch = Launch(argv: seq<string>, io: Fds, redirect: RedirStatus, background: bool)

  /** Both descriptors as the shell itself has them. */
  const Terminal := Fds(Inherited, Inherited)

  /** The argv buffer after the `&` check, and whether it fired. */
  function StripAmp(a: seq<Arg>): (r: (seq<Arg>, bool))
    ensures |r.0| == |a| && (Null in a ==> Null in r.0)
    ensures r.1 <==> |Words(a)| > 0 && Words(a)[|Words(a)| - 1] == "&"
    ensures Words(r.0) == if r.1 then Words(a)[..|Words(a)| - 1] else Words(a)
    ensures forall k :: 0 <= k < |a| && k != |Words(a)| - 1 ==> r.0[k] == a[k]
  {
    var w := Words(a);
    var n := |w|;
    if n > 0 && a[n - 1] == Str("&") then
      WordsAfterClear(a, n - 1);
      var b := a[n - 1 := Null];
      assert b[n - 1] == Null && w[n - 1] == "&";
      (b, true)
    else
      assert n > 0 ==> a[n - 1] == Str(w[n - 1]);
      (a, false)
  }

  /** Only a trailing `&` counts: an argv whose last word is something else
      keeps every `&` it holds and runs in the foreground. */
  lemma {:induction false} AmpElsewhereIgnored(a: seq<Arg>, k: nat)
    requires k + 1 < |Words(a)| && Words(a)[k] == "&"
    requires Words(a)[|Words(a)| - 1] != "&"
    ensures !StripAmp(a).1 && Words(StripAmp(a).0)[k] == "&"
  {
  }

  /** The `&` prefix of `execute`, in place: count the argv, and if its last
      word is `&`, overwrite that slot with NULL. */
  method StripBackground(args: array<Arg>) returns (background: bool)
    requires Null in args[..]
    modifies args
    ensures (args[..], background) == StripAmp(old(args[..]))
  {
    var i := CountArgs(args);
    background := false;
    if i > 0 && args[i - 1] == Str("&") {
      background := true;
      args[i - 1] := Null;
    }
  }

  /** The launch `execute` makes for a NULL-terminated argv buffer. */
  function ExecSpec(a: seq<Arg>, openable: Openable): Launch
  {
    var (b, background) := StripAmp(a);
    var r := Scan(b, 0, Terminal, openable);
    Launch(Words(r.argv), r.io, r.status, background)
  }

  /** A command with no `<`, `>` or trailing `&` runs in the foreground
      with exactly its words and the shell's own descriptors. */
  lemma {:induction false} PlainCommand(a: seq<Arg>, openable: Openable)
    requires Null in a && |Words(a)| > 0
    requires forall k :: 0 <= k < |Words(a)| ==> Words(a)[k] != ">" && Words(a)[k] != "<"
    requires Words(a)[|Words(a)| - 1] != "&"
    ensures ExecSpec(a, openable) == Launch(Words(a), Terminal, Completed, false)
  {
    assert StripAmp(a) == (a, false);
    ScanWithoutOperators(a, Terminal, openable);
  }

  /** The `&` check reads nothing past the argv's NULL terminator. */
  lemma StripAmpExtend(p: seq<Arg>, t: seq<Arg>)
    requires Null in p
    ensures StripAmp(p + t) == (StripAmp(p).0 + t, StripAmp(p).1)
  {
    WordsExtend(p, t);
    var n := |Words(p)|;
    if n > 0 {
      assert (p + t)[n - 1] == p[n - 1];
      assert (p + t)[n - 1 := Null] == p[n - 1 := Null] + t;
    }
  }

  /** `execute` reads nothing past the argv's NULL terminator. */
  lemma ExecSpecExtend(p: seq<Arg>, t: seq<Arg>, openable: Openable)
    requires Null in p
    ensures ExecSpec(p + t, openable) == ExecSpec(p, openable)
  {
    StripAmpExtend(p, t);
    var b := StripAmp(p).0;
    ScanExtend(b, t, 0, Terminal, openable);
    ScanWordsExtend(b, t, Terminal, openable);
  }

  /** `execute`: the parent's buffer loses only the trailing `&`; the child
      applies redirection to its own copy (fork copies memory), then execs.
      Always returns 1, the status that keeps the shell running. */
  method Execute(args: array<Arg>, openable: Openable) returns (status: int, launch: Launch)
    requires Null in args[..]
    modifies args
    ensures status == 1
    ensures args[..] == StripAmp(old(args[..])).0
    ensures launch == ExecSpec(old(args[..]), openable)
  {
    var background := StripBackground(args);
    // fork: the child works on its own copy of the buffer
    var child := new Arg[args.Length];
    forall k | 0 <= k < args.Length {
      child[k] := args[k];
    }
    assert child[..] == args[..] == StripAmp(old(args[..])).0;
    var io, redirect, _ := HandleRedirection(child, Terminal, openable);
    launch := Launch(Words(child[..]), io, redirect, background);
    status := 1;
  }
}
