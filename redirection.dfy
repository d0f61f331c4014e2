/** `handle_redirection`: a left-to-right scan of argv that rebinds standard
    input and output for each `<` or `>` followed by a file name, and cuts
    argv at the operator by writing NULL over it. The descriptors are kept
    abstract: each is inherited, a pipe end, or a named file. */
module Redirection {
  import opened Argv

  /** Where a standard descriptor of the child points. */
  datatype Endpoint =
    | Inherited          // the shell's own fd 0 or fd 1
    | Pipe(index: nat)   // the read end (for stdin) or write end (for stdout) of pipe `index`
    | File(name: string) // a file the child opened

  datatype Fds = Fds(stdin: Endpoint, stdout: Endpoint)

  /** How `open` is called: `>` opens for writing (creating and truncating),
      `<` opens for reading. */
  datatype OpenMode = ForWriting | ForReading

  /** The (mode, file name) pairs for which `open` succeeds. */
  type Openable = iset<(OpenMode, string)>

  /** How the scan ended. The source prints a message and returns on the
      two errors; nothing is rolled back. */
  datatype RedirStatus = Completed | MissingFilename | OpenFailed

  /** The scan's result: the edited argv, the descriptor bindings, the index
      where scanning stopped, and why. */
  datatype Scanned = Scanned(argv: seq<Arg>, io: Fds, stop: nat, status: RedirStatus)

  predicate IsOp(x: Arg)
  {
    x == Str(">") || x == Str("<")
  }

  function ModeOf(op: Arg): OpenMode
  {
    if op == Str(">") then ForWriting else ForReading
  }

  /** Rebinding stdout for `>` and stdin for `<` (dup2 over the old one). */
  function Rebind(io: Fds, op: Arg, name: string): Fds
  {
    if op == Str(">") then io.(stdout := File(name)) else io.(stdin := File(name))
  }

  /** The scan loop from index `i`, one step per slot; `openable` stands for
      whether `open` succeeds. */
  function Scan(a: seq<Arg>, i: nat, io: Fds, openable: Openable): (r: Scanned)
    requires i <= |a|
    ensures |r.argv| == |a| && i <= r.stop <= |a|
    ensures forall k :: i <= k < r.stop ==> a[k] != Null
    ensures r.status == Completed ==> r.stop == |a| || a[r.stop] == Null
    ensures r.status == MissingFilename ==>
      r.stop < |a| && IsOp(a[r.stop]) && (r.stop + 1 == |a| || a[r.stop + 1] == Null)
    ensures r.status == OpenFailed ==>
      r.stop + 1 < |a| && IsOp(a[r.stop]) && a[r.stop + 1] != Null
      && (ModeOf(a[r.stop]), a[r.stop + 1].s) !in openable
    decreases |a| - i
  {
    if i == |a| || a[i] == Null then Scanned(a, io, i, Completed)
    else if IsOp(a[i]) then
      if i + 1 == |a| || a[i + 1] == Null then Scanned(a, io, i, MissingFilename)
      else if (ModeOf(a[i]), a[i + 1].s) !in openable then Scanned(a, io, i, OpenFailed)
      else
        var b := a[i := Null];
        assert forall k :: i < k < |a| ==> b[k] == a[k];
        Scan(b, i + 1, Rebind(io, a[i], a[i + 1].s), openable)
    else Scan(a, i + 1, io, openable)
  }

  /** The scan stops at the first error: every operator it passed had a
      file name, and `open` accepted that name. */
  lemma {:induction false} ScanStopsAtFirstError(a: seq<Arg>, i: nat, io: Fds, openable: Openable)
    requires i <= |a|
    ensures var r := Scan(a, i, io, openable);
      forall k :: i <= k < r.stop && IsOp(a[k]) ==>
        k + 1 < |a| && a[k + 1] != Null && (ModeOf(a[k]), a[k + 1].s) in openable
    decreases |a| - i
  {
    if i == |a| || a[i] == Null {
    } else if IsOp(a[i]) {
      if i + 1 == |a| || a[i + 1] == Null {
      } else if (ModeOf(a[i]), a[i + 1].s) !in openable {
      } else {
        var b := a[i := Null];
        ScanStopsAtFirstError(b, i + 1, Rebind(io, a[i], a[i + 1].s), openable);
        assert forall k :: i < k < |a| ==> b[k] == a[k];
      }
    } else {
      ScanStopsAtFirstError(a, i + 1, io, openable);
    }
  }

  /** The target of the last `op` whose file name lies in `a[lo..hi]`
      (operator at `hi - 1` or before, file name after it), or `dflt` when
      there is none: a reference definition that reads from the right. */
  function LastTarget(a: seq<Arg>, op: string, lo: nat, hi: nat, dflt: Endpoint): Endpoint
    decreases hi
  {
    if hi <= lo || hi > |a| then dflt
    else if a[hi - 1] == Str(op) && hi < |a| && a[hi] != Null then File(a[hi].s)
    else LastTarget(a, op, lo, hi - 1, dflt)
  }

  /** LastTarget looks only at slots from `lo` on. */
  lemma {:induction false} LastTargetFrame(a: seq<Arg>, b: seq<Arg>, op: string, lo: nat, hi: nat, dflt: Endpoint)
    requires |a| == |b| && forall k :: lo <= k < |a| ==> a[k] == b[k]
    ensures LastTarget(a, op, lo, hi, dflt) == LastTarget(b, op, lo, hi, dflt)
    decreases hi
  {
    if lo < hi <= |a| {
      LastTargetFrame(a, b, op, lo, hi - 1, dflt);
    }
  }

  /** Moving the lower bound past slot `lo` folds that slot's operator, if
      any, into the default. */
  lemma {:induction false} LastTargetShift(a: seq<Arg>, op: string, lo: nat, hi: nat, dflt: Endpoint)
    requires lo < hi <= |a|
    ensures LastTarget(a, op, lo, hi, dflt) ==
      LastTarget(a, op, lo + 1, hi,
        if a[lo] == Str(op) && lo + 1 < |a| && a[lo + 1] != Null then File(a[lo + 1].s) else dflt)
    decreases hi
  {
    if hi > lo + 1 {
      LastTargetShift(a, op, lo, hi - 1, dflt);
    }
  }

  /** The later operator wins: after the scan, stdout is the file of the
      last `>` and stdin the file of the last `<` passed before the scan
      stopped, or what they were before when there was none. */
  lemma {:induction false} ScanLastWins(a: seq<Arg>, i: nat, io: Fds, openable: Openable)
    requires i <= |a|
    ensures Scan(a, i, io, openable).io.stdout == LastTarget(a, ">", i, Scan(a, i, io, openable).stop, io.stdout)
    ensures Scan(a, i, io, openable).io.stdin == LastTarget(a, "<", i, Scan(a, i, io, openable).stop, io.stdin)
    decreases |a| - i
  {
    var r := Scan(a, i, io, openable);
    if i == |a| || a[i] == Null {
    } else if IsOp(a[i]) {
      if i + 1 == |a| || a[i + 1] == Null {
      } else if (ModeOf(a[i]), a[i + 1].s) !in openable {
      } else {
        var b := a[i := Null];
        var io' := Rebind(io, a[i], a[i + 1].s);
        ScanLastWins(b, i + 1, io', openable);
        LastTargetFrame(a, b, ">", i + 1, r.stop, io'.stdout);
        LastTargetFrame(a, b, "<", i + 1, r.stop, io'.stdin);
        LastTargetShift(a, ">", i, r.stop, io.stdout);
        LastTargetShift(a, "<", i, r.stop, io.stdin);
      }
    } else {
      ScanLastWins(a, i + 1, io, openable);
      LastTargetShift(a, ">", i, r.stop, io.stdout);
      LastTargetShift(a, "<", i, r.stop, io.stdin);
    }
  }

  /** The only edits are NULLs over the operators the scan got past; the
      operator the scan stopped at on an error keeps its slot. */
  lemma {:induction false} ScanEdits(a: seq<Arg>, i: nat, io: Fds, openable: Openable)
    requires i <= |a|
    ensures forall k :: 0 <= k < |a| ==>
      Scan(a, i, io, openable).argv[k] == if i <= k < Scan(a, i, io, openable).stop && IsOp(a[k]) then Null else a[k]
    decreases |a| - i
  {
    if i == |a| || a[i] == Null {
    } else if IsOp(a[i]) {
      if i + 1 == |a| || a[i + 1] == Null {
      } else if (ModeOf(a[i]), a[i + 1].s) !in openable {
      } else {
        var b := a[i := Null];
        ScanEdits(b, i + 1, Rebind(io, a[i], a[i + 1].s), openable);
        var r := Scan(a, i, io, openable);
        forall k | 0 <= k < |a|
          ensures r.argv[k] == if i <= k < r.stop && IsOp(a[k]) then Null else a[k]
        {
          if k != i {
            assert b[k] == a[k];
          }
        }
      }
    } else {
      ScanEdits(a, i + 1, io, openable);
    }
  }

  /** A buffer that agrees with `a` before a NULL at `f`, where `a` itself
      still holds strings up to and including `f`, reads as the first `f`
      words of `a`. */
  lemma {:induction false} CutAt(a: seq<Arg>, b: seq<Arg>, f: nat)
    requires f < |a| == |b| && b[f] == Null
    requires forall k :: 0 <= k <= f ==> a[k] != Null
    requires forall k :: 0 <= k < f ==> b[k] == a[k]
    ensures Words(b) == Words(a)[..f]
  {
    WordsUpTo(b, f);
    var w := Words(a);
    assert a[f] != Null;
    assert f < |w|;
  }

  /** What `execvp` then sees: argv cut at the first operator the scan got
      past, or argv unchanged when it got past none. */
  lemma EffectiveArgv(a: seq<Arg>, io: Fds, openable: Openable)
    ensures var r := Scan(a, 0, io, openable);
      (forall k :: 0 <= k < r.stop ==> !IsOp(a[k])) ==> Words(r.argv) == Words(a)
    ensures var r := Scan(a, 0, io, openable);
      forall f :: 0 <= f < r.stop && IsOp(a[f]) && (forall k :: 0 <= k < f ==> !IsOp(a[k])) ==>
        Words(r.argv) == Words(a)[..f]
  {
    var r := Scan(a, 0, io, openable);
    ScanEdits(a, 0, io, openable);
    if forall k :: 0 <= k < r.stop ==> !IsOp(a[k]) {
      assert r.argv == a;
    }
    forall f | 0 <= f < r.stop && IsOp(a[f]) && (forall k :: 0 <= k < f ==> !IsOp(a[k]))
      ensures Words(r.argv) == Words(a)[..f]
    {
      assert r.argv[f] == Null;
      CutAt(a, r.argv, f);
    }
  }

  /** With no operator in `a[..hi]`, LastTarget keeps the default. */
  lemma {:induction false} LastTargetNone(a: seq<Arg>, op: string, hi: nat, dflt: Endpoint)
    requires op == ">" || op == "<"
    requires forall k :: 0 <= k < hi && k < |a| ==> !IsOp(a[k])
    ensures LastTarget(a, op, 0, hi, dflt) == dflt
    decreases hi
  {
    if 0 < hi <= |a| {
      LastTargetNone(a, op, hi - 1, dflt);
    }
  }

  /** A stretch of plain words up to a NULL is scanned without effect. */
  lemma {:induction false} ScanPlain(a: seq<Arg>, i: nat, f: nat, io: Fds, openable: Openable)
    requires i <= f < |a| && a[f] == Null
    requires forall k :: i <= k < f ==> a[k] != Null && !IsOp(a[k])
    ensures Scan(a, i, io, openable) == Scanned(a, io, f, Completed)
    decreases f - i
  {
    if i < f {
      ScanPlain(a, i + 1, f, io, openable);
    }
  }

  /** An argv with neither `<` nor `>` passes through the scan untouched
      and leaves both descriptors as they were. */
  lemma ScanWithoutOperators(a: seq<Arg>, io: Fds, openable: Openable)
    requires Null in a
    requires forall k :: 0 <= k < |Words(a)| ==> Words(a)[k] != ">" && Words(a)[k] != "<"
    ensures Scan(a, 0, io, openable) == Scanned(a, io, |Words(a)|, Completed)
  {
    var w := Words(a);
    forall k | 0 <= k < |w| ensures a[k] != Null && !IsOp(a[k]) {
      assert a[k] == Str(w[k]);
    }
    ScanPlain(a, 0, |w|, io, openable);
  }

  /** The scan never looks past the first NULL, so slots after it only
      come along unchanged. */
  lemma {:induction false} ScanExtend(a: seq<Arg>, t: seq<Arg>, i: nat, io: Fds, openable: Openable)
    requires i <= |a| && Null in a[i..]
    ensures var r := Scan(a, i, io, openable);
      Scan(a + t, i, io, openable) == Scanned(r.argv + t, r.io, r.stop, r.status)
    decreases |a| - i
  {
    assert a[i..] == [a[i]] + a[i + 1..];
    if a[i] == Null {
      assert (a + t)[i] == Null;
    } else {
      assert (a + t)[i] == a[i] && (a + t)[i + 1] == a[i + 1];
      if IsOp(a[i]) {
        if a[i + 1] == Null {
        } else if (ModeOf(a[i]), a[i + 1].s) !in openable {
        } else {
          assert (a + t)[i := Null] == a[i := Null] + t;
          assert a[i := Null][i + 1..] == a[i + 1..];
          ScanExtend(a[i := Null], t, i + 1, Rebind(io, a[i], a[i + 1].s), openable);
        }
      } else {
        ScanExtend(a, t, i + 1, io, openable);
      }
    }
  }

  /** The argv read back after scanning a NULL-terminated buffer is the
      same whatever slots follow the terminator. */
  lemma ScanWordsExtend(a: seq<Arg>, t: seq<Arg>, io: Fds, openable: Openable)
    requires Null in a
    ensures Words(Scan(a, 0, io, openable).argv + t) == Words(Scan(a, 0, io, openable).argv)
  {
    var r := Scan(a, 0, io, openable);
    ScanEdits(a, 0, io, openable);
    var k :| 0 <= k < |a| && a[k] == Null;
    assert r.argv[k] == Null;
    WordsExtend(r.argv, t);
  }

  /** `handle_redirection`, in place on the buffer: `io` is what stdin and
      stdout are bound to on entry, the result what they are bound to after. */
  method HandleRedirection(args: array<Arg>, io: Fds, openable: Openable)
    returns (io': Fds, status: RedirStatus, stop: nat)
    requires Null in args[..]
    modifies args
    ensures Scanned(args[..], io', stop, status) == Scan(old(args[..]), 0, io, openable)
  {
    var i := 0;
    io' := io;
    ghost var n := |Words(args[..])|;
    while args[i] != Null
      invariant i <= n < args.Length && args[n] == Null
      invariant forall k :: i <= k < args.Length ==> args[k] == old(args[k])
      invariant Scan(args[..], i, io', openable) == Scan(old(args[..]), 0, io, openable)
      decreases n - i
    {
      if args[i] == Str(">") {
        if args[i + 1] == Null {
          return io', MissingFilename, i;
        }
        if (ForWriting, args[i + 1].s) !in openable {
          return io', OpenFailed, i;
        }
        io' := io'.(stdout := File(args[i + 1].s));
        args[i] := Null;
      } else if args[i] == Str("<") {
        if args[i + 1] == Null {
          return io', MissingFilename, i;
        }
        if (ForReading, args[i + 1].s) !in openable {
          return io', OpenFailed, i;
        }
        io' := io'.(stdin := File(args[i + 1].s));
        args[i] := Null;
      }
      i := i + 1;
    }
    return io', Completed, i;
  }
}
