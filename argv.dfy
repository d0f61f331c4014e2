/** Argument vectors as the shell keeps them: a buffer of string pointers
    terminated by a NULL slot. Everything before the first NULL is the
    argv a program sees. */
module Argv {

  /** One slot of an argv buffer: a NULL pointer or a pointer to a string. */
  datatype Arg = Null | Str(s: string)

  /** The strings a consumer of the buffer sees: those before the first NULL. */
  function Words(a: seq<Arg>): (w: seq<string>)
    ensures |w| <= |a|
    ensures forall k :: 0 <= k < |w| ==> a[k] == Str(w[k])
    ensures |w| < |a| ==> a[|w|] == Null
    ensures Null in a ==> |w| < |a|
  {
    if a == [] || a[0] == Null then [] else [a[0].s] + Words(a[1..])
  }

  /** The buffer split_line builds for the tokens `w`: one slot per token,
      then the NULL terminator. */
  function Terminated(w: seq<string>): (a: seq<Arg>)
    ensures |a| == |w| + 1 && a[|w|] == Null
    ensures forall k :: 0 <= k < |w| ==> a[k] == Str(w[k])
  {
    seq(|w|, k requires 0 <= k < |w| => Str(w[k])) + [Null]
  }

  /** Any buffer whose slots up to a NULL at `f` hold strings reads as
      exactly those strings. */
  lemma {:induction false} WordsUpTo(a: seq<Arg>, f: nat)
    requires f < |a| && a[f] == Null
    requires forall k :: 0 <= k < f ==> a[k] != Null
    ensures |Words(a)| == f
    ensures forall k :: 0 <= k < f ==> Words(a)[k] == a[k].s
  {
  }

  /** Reading back the buffer of a token list gives the token list. */
  lemma WordsOfTerminated(w: seq<string>)
    ensures Words(Terminated(w)) == w
  {
    WordsUpTo(Terminated(w), |w|);
  }

  /** A buffer that starts with a terminated token list is that list
      followed by the rest of the buffer. */
  lemma TerminatedPrefix(buffer: seq<Arg>, w: seq<string>, count: nat)
    requires count < |buffer| && buffer[..count + 1] == Terminated(w)
    ensures buffer == Terminated(w) + buffer[count + 1..]
  {
    assert buffer == buffer[..count + 1] + buffer[count + 1..];
  }

  /** A buffer whose first slots hold `w` and whose next slot is NULL. */
  lemma FilledPrefix(buffer: seq<Arg>, w: seq<string>, count: nat)
    requires count == |w| < |buffer| && buffer[count] == Null
    requires forall k :: 0 <= k < count ==> buffer[k] == Str(w[k])
    ensures buffer[..count + 1] == Terminated(w)
    ensures Words(buffer) == w
  {
    assert buffer[..count + 1] == Terminated(w);
    WordsUpTo(buffer, count);
  }

  /** Slots after a NULL are never read. */
  lemma {:induction false} WordsExtend(p: seq<Arg>, t: seq<Arg>)
    requires Null in p
    ensures Words(p + t) == Words(p)
  {
    var w := Words(p);
    assert forall k :: 0 <= k <= |w| ==> (p + t)[k] == p[k];
    WordsUpTo(p + t, |w|);
  }

  /** Overwriting slot `k` with NULL cuts the argv at `k` when `k` lies
      inside it and changes nothing a consumer sees otherwise. */
  lemma {:induction false} WordsAfterClear(a: seq<Arg>, k: nat)
    requires k < |a|
    ensures Words(a[k := Null]) == if k < |Words(a)| then Words(a)[..k] else Words(a)
  {
    var w := Words(a);
    var b := a[k := Null];
    if k < |w| {
      WordsUpTo(b, k);
    } else {
      if |w| < |a| {
        WordsUpTo(b, |w|);
      }
    }
  }

  /** The counting loop at the start of `execute`: walk the buffer to its
      NULL terminator. */
  method CountArgs(args: array<Arg>) returns (n: nat)
    requires Null in args[..]
    ensures n < args.Length && args[n] == Null
    ensures forall k :: 0 <= k < n ==> args[k] != Null
    ensures n == |Words(args[..])|
  {
    n := 0;
    assert args[..] == args[0..];
    while args[n] != Null
      invariant n < args.Length && Null in args[n..]
      invariant forall k :: 0 <= k < n ==> args[k] != Null
      decreases args.Length - n
    {
      assert args[n..] == [args[n]] + args[n + 1..];
      n := n + 1;
    }
    WordsUpTo(args[..], n);
  }
}
