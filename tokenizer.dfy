/** Splitting a command line into tokens: the strtok loop of `split_line`
    and the growable token buffer it fills. The same strtok model splits a
    line into pipeline stages on '|'. */
module Tokenizer {
  import opened Argv

  /** The token buffer starts with this many slots and grows by as many. */
  const MaxTokens: nat := 64

  /** Space, tab, carriage return, newline and bell separate tokens. */
  const Whitespace: set<char> := {' ', '\t', '\r', '\n', '\U{7}'}

  predicate NoneIn(s: string, delims: set<char>)
  {
    forall k :: 0 <= k < |s| ==> s[k] !in delims
  }

  predicate AllIn(s: string, delims: set<char>)
  {
    forall k :: 0 <= k < |s| ==> s[k] in delims
  }

  /** Length of the run of non-delimiters at the start of `s`. */
  function RunLength(s: string, delims: set<char>): (n: nat)
    ensures n <= |s|
    ensures NoneIn(s[..n], delims)
    ensures n < |s| ==> s[n] in delims
  {
    if s == [] || s[0] in delims then 0 else 1 + RunLength(s[1..], delims)
  }

  /** What repeated strtok calls return: the maximal runs of characters not
      in `delims`, in order. Runs of delimiters, leading and trailing ones
      included, produce nothing. */
  function Split(s: string, delims: set<char>): seq<string>
    decreases |s|
  {
    if s == [] then []
    else if s[0] in delims then Split(s[1..], delims)
    else
      var n := RunLength(s, delims);
      [s[..n]] + Split(s[n..], delims)
  }

  /** Every token is non-empty and holds no delimiter. */
  lemma {:induction false} SplitWellFormed(s: string, delims: set<char>)
    ensures forall k :: 0 <= k < |Split(s, delims)| ==>
      Split(s, delims)[k] != [] && NoneIn(Split(s, delims)[k], delims)
    decreases |s|
  {
    if s == [] {
    } else if s[0] in delims {
      SplitWellFormed(s[1..], delims);
    } else {
      SplitWellFormed(s[RunLength(s, delims)..], delims);
    }
  }

  /** A line yields no token exactly when it is empty or made only of
      delimiters. */
  lemma {:induction false} SplitEmptyIff(s: string, delims: set<char>)
    ensures Split(s, delims) == [] <==> AllIn(s, delims)
    decreases |s|
  {
    if s != [] {
      SplitEmptyIff(s[1..], delims);
      if s[0] in delims {
        assert AllIn(s, delims) <==> AllIn(s[1..], delims) by {
          if AllIn(s[1..], delims) {
            forall k | 0 <= k < |s| ensures s[k] in delims {
              if k > 0 { assert s[k] == s[1..][k - 1]; }
            }
          }
        }
      }
    }
  }

  /** Leading delimiters are skipped. */
  lemma {:induction false} SplitSkipsDelimiters(d: string, s: string, delims: set<char>)
    requires AllIn(d, delims)
    ensures Split(d + s, delims) == Split(s, delims)
    decreases |d|
  {
    if d != [] {
      assert (d + s)[0] == d[0] && (d + s)[1..] == d[1..] + s;
      assert Split(d + s, delims) == Split(d[1..] + s, delims);
      SplitSkipsDelimiters(d[1..], s, delims);
    } else {
      assert d + s == s;
    }
  }

  /** A run of non-delimiters followed by a delimiter or by nothing is one
      token. */
  lemma SplitTakesRun(t: string, s: string, delims: set<char>)
    requires t != [] && NoneIn(t, delims)
    requires s == [] || s[0] in delims
    ensures Split(t + s, delims) == [t] + Split(s, delims)
  {
    var n := RunLength(t + s, delims);
    assert forall k :: 0 <= k < |t| ==> (t + s)[k] == t[k];
    assert |t| < |t + s| ==> (t + s)[|t|] == s[0];
    assert n == |t|;
    assert (t + s)[..n] == t && (t + s)[n..] == s;
  }

  /** The text `seps[0] + toks[0] + seps[1] + ... + toks[n-1] + seps[n]`. */
  function Interleave(seps: seq<string>, toks: seq<string>): string
    requires |seps| == |toks| + 1
  {
    if toks == [] then seps[0]
    else seps[0] + toks[0] + Interleave(seps[1..], toks[1..])
  }

  /** Maximality: any way of writing a line as non-empty delimiter-free
      tokens separated by delimiter runs (non-empty between two tokens)
      is the way Split finds. */
  lemma {:induction false} SplitOfInterleave(seps: seq<string>, toks: seq<string>, delims: set<char>)
    requires |seps| == |toks| + 1
    requires forall k :: 0 <= k < |seps| ==> AllIn(seps[k], delims)
    requires forall k :: 0 < k < |toks| ==> seps[k] != []
    requires forall k :: 0 <= k < |toks| ==> toks[k] != [] && NoneIn(toks[k], delims)
    ensures Split(Interleave(seps, toks), delims) == toks
    decreases |toks|
  {
    if toks == [] {
      SplitEmptyIff(seps[0], delims);
    } else {
      var rest := Interleave(seps[1..], toks[1..]);
      SplitOfInterleave(seps[1..], toks[1..], delims);
      assert rest == [] || rest[0] in delims by {
        if toks[1..] != [] {
          assert seps[1] != [];
          assert rest == seps[1] + toks[1] + Interleave(seps[2..], toks[2..]);
          assert rest[0] == seps[1][0];
        } else {
          assert rest == seps[1];
        }
      }
      calc {
        Split(Interleave(seps, toks), delims);
        { assert Interleave(seps, toks) == seps[0] + (toks[0] + rest); }
        Split(seps[0] + (toks[0] + rest), delims);
        { SplitSkipsDelimiters(seps[0], toks[0] + rest, delims); }
        Split(toks[0] + rest, delims);
        { SplitTakesRun(toks[0], rest, delims); }
        [toks[0]] + toks[1..];
      }
    }
  }

  /** The tokens joined with single spaces. */
  function JoinWithSpace(toks: seq<string>): string
  {
    if toks == [] then [] else if |toks| == 1 then toks[0] else toks[0] + " " + JoinWithSpace(toks[1..])
  }

  /** Separators for `n` tokens joined with spaces: `first` before the
      first token, a space between tokens, nothing after the last. */
  function SpaceSeps(n: nat, first: string): (seps: seq<string>)
    ensures |seps| == n + 1
  {
    if n == 0 then [[]] else [first] + SpaceSeps(n - 1, " ")
  }

  lemma {:induction false} JoinIsInterleave(toks: seq<string>, first: string)
    requires toks != [] || first == []
    ensures first + JoinWithSpace(toks) == Interleave(SpaceSeps(|toks|, first), toks)
    decreases |toks|
  {
    if |toks| == 1 {
      assert toks[1..] == [];
    } else if toks != [] {
      JoinIsInterleave(toks[1..], " ");
    }
  }

  lemma {:induction false} SpaceSepsShape(n: nat, first: string)
    requires first == [] || first == " "
    ensures forall k :: 0 <= k < n + 1 ==> SpaceSeps(n, first)[k] in {[], " "}
    ensures forall k :: 0 < k < n ==> SpaceSeps(n, first)[k] == " "
    decreases n
  {
    if n > 0 {
      SpaceSepsShape(n - 1, " ");
    }
  }

  /** Tokenizing is idempotent: re-tokenizing the tokens joined by spaces
      gives the same tokens. */
  lemma SplitJoinRoundTrip(s: string)
    ensures Split(JoinWithSpace(Split(s, Whitespace)), Whitespace) == Split(s, Whitespace)
  {
    var toks := Split(s, Whitespace);
    SplitWellFormed(s, Whitespace);
    JoinIsInterleave(toks, []);
    assert [] + JoinWithSpace(toks) == JoinWithSpace(toks);
    var seps := SpaceSeps(|toks|, []);
    SpaceSepsShape(|toks|, []);
    forall k | 0 <= k < |seps| ensures AllIn(seps[k], Whitespace) {
      assert seps[k] in {[], " "};
    }
    SplitOfInterleave(seps, toks, Whitespace);
  }

  /** One strtok call resuming at `pos`: skip delimiters, take the run that
      follows, and resume after the delimiter that ends it (strtok writes a
      NUL there). */
  method StrTok(s: string, pos: nat, delims: set<char>) returns (found: bool, tok: string, next: nat)
    requires pos <= |s|
    ensures pos <= next <= |s|
    ensures found ==> pos < next && tok != [] && NoneIn(tok, delims)
    ensures found ==> Split(s[pos..], delims) == [tok] + Split(s[next..], delims)
    ensures !found ==> next == |s| && Split(s[pos..], delims) == []
  {
    var i := pos;
    while i < |s| && s[i] in delims
      invariant pos <= i <= |s|
      invariant Split(s[pos..], delims) == Split(s[i..], delims)
    {
      assert s[i..][1..] == s[i + 1..];
      i := i + 1;
    }
    if i == |s| {
      return false, [], |s|;
    }
    var j := i;
    while j < |s| && s[j] !in delims
      invariant i <= j <= |s|
      invariant forall k :: i <= k < j ==> s[k] !in delims
    {
      j := j + 1;
    }
    found, tok := true, s[i..j];
    next := if j < |s| then j + 1 else j;
    SplitAtRun(s, i, j, delims);
  }

  /** The run `s[i..j]`, ended by a delimiter or by the end of `s`, is the
      next token; the tokens after it start past that delimiter. */
  lemma SplitAtRun(s: string, i: nat, j: nat, delims: set<char>)
    requires i < j <= |s|
    requires forall k :: i <= k < j ==> s[k] !in delims
    requires j == |s| || s[j] in delims
    ensures NoneIn(s[i..j], delims)
    ensures Split(s[i..], delims) == [s[i..j]] + Split(s[if j < |s| then j + 1 else j..], delims)
  {
    var tok := s[i..j];
    assert NoneIn(tok, delims);
    assert s[i..] == tok + s[j..];
    SplitTakesRun(tok, s[j..], delims);
    if j < |s| {
      assert s[j..][1..] == s[j + 1..];
    }
  }

  /** realloc: a larger buffer whose first slots are the old buffer's. */
  method Grow(a: array<Arg>, size: nat) returns (b: array<Arg>)
    requires a.Length <= size
    ensures fresh(b) && b.Length == size
    ensures forall m :: 0 <= m < a.Length ==> b[m] == a[m]
  {
    b := new Arg[size](_ => Null);
    var k := 0;
    while k < a.Length
      invariant 0 <= k <= a.Length
      invariant forall m :: 0 <= m < k ==> b[m] == a[m]
    {
      b[k] := a[k];
      k := k + 1;
    }
    assert b[..a.Length] == a[..];
  }

  /** Storing one token and growing the buffer when it fills: afterwards
      the next slot (for a token or the final NULL) exists. */
  method Push(tokens: array<Arg>, position: nat, tok: string) returns (buf: array<Arg>)
    requires position < tokens.Length && tokens.Length % MaxTokens == 0
    requires tokens.Length - MaxTokens <= position
    modifies tokens
    ensures fresh(buf) || buf == tokens
    ensures position + 1 < buf.Length && buf.Length % MaxTokens == 0
    ensures buf.Length - MaxTokens <= position + 1
    ensures forall k :: 0 <= k < position ==> buf[k] == old(tokens[k])
    ensures buf[position] == Str(tok)
  {
    tokens[position] := Str(tok);
    buf := tokens;
    if position + 1 >= tokens.Length {
      buf := Grow(tokens, tokens.Length + MaxTokens);
    }
  }

  /** `split_line`: the tokens of `line` in a NULL-terminated buffer that
      starts at MaxTokens slots and grows by MaxTokens whenever it fills, so
      the terminating NULL always has a slot. */
  method SplitLine(line: string) returns (tokens: array<Arg>, count: nat)
    ensures fresh(tokens)
    ensures count < tokens.Length && tokens.Length % MaxTokens == 0
    ensures tokens.Length - MaxTokens <= count
    ensures tokens[..count + 1] == Terminated(Split(line, Whitespace))
    ensures Words(tokens[..]) == Split(line, Whitespace)
  {
    tokens := new Arg[MaxTokens](_ => Null);
    var position := 0;
    ghost var done: seq<string> := [];
    assert line[0..] == line;
    var found, tok, next := StrTok(line, 0, Whitespace);
    while found
      invariant fresh(tokens)
      invariant position < tokens.Length && tokens.Length % MaxTokens == 0
      invariant tokens.Length - MaxTokens <= position
      invariant position == |done| && forall k :: 0 <= k < position ==> tokens[k] == Str(done[k])
      invariant next <= |line|
      invariant found ==> Split(line, Whitespace) == done + [tok] + Split(line[next..], Whitespace)
      invariant !found ==> Split(line, Whitespace) == done
      decreases if found then |line| - next + 1 else 0
    {
      ghost var before := tokens[..position];
      tokens := Push(tokens, position, tok);
      assert forall k :: 0 <= k < position ==> tokens[k] == before[k] == Str(done[k]);
      done := done + [tok];
      position := position + 1;
      ghost var prev := next;
      found, tok, next := StrTok(line, next, Whitespace);
      assert Split(line, Whitespace) == done + Split(line[prev..], Whitespace);
    }
    tokens[position] := Null;
    count := position;
    FilledPrefix(tokens[..], done, count);
  }
}
