# custom-shell: a verified model of the command-line core

This project models `src/main.c` of a small interactive shell written in C,
the part that handles one line of input before and around process creation:

- `split_line` splits a line into tokens on space, tab, CR, LF and BEL. It fills
  a NULL-terminated pointer buffer that starts at 64 slots and grows by 64
  (`tokenizer.dfy`, module `Tokenizer`).
- `execute` strips a trailing `&`, forks, and in the child applies redirections
  and execs (`launcher.dfy`, module `Launcher`).
- `handle_redirection` scans argv for `>` and `<`, rebinds stdout/stdin and
  writes NULL over each operator it applies (`redirection.dfy`, module
  `Redirection`).
- `execute_piped` splits the line on `|` into the 64-slot `cmds` array, with no
  bound check (see Findings), and wires stage
  *i*'s stdout to stage *i+1*'s stdin through the loop variable `in_fd`
  (`pipeline.dfy`, module `Pipeline`).
- `dispatch` and the built-ins `cd`, `help` and `exit` route commands. The `main`
  loop cuts each line at its newline, sends lines holding `|` to
  `execute_piped` and the rest to `dispatch`, and stops at status 0
  (`shell.dfy`, module `Shell`).
- An argv is a buffer of `Arg` slots, `Null | Str(s)`. `Words` is what a
  consumer sees: the strings before the first NULL (`argv.dfy`, module `Argv`).

The imperative parts stay imperative. `SplitLine` keeps a growable `array`.
`HandleRedirection`, `StripBackground` and `Execute` edit the argv `array` in
place. `ExecutePiped` carries `in_fd` across its loop. Each of these methods is
proved against a specification function: `Split`, `Scan`, `StripAmp`,
`ExecSpec` or `PipedSpec`. Lemmas prove the source's promises about those
functions. `fork` copies memory, so `Execute` runs the redirection scan on a
copy of the buffer: the parent only ever sees the `&` strip.

Operating-system effects are abstract. `open` succeeding is an oracle passed
in: `openable`, the set of (mode, file name) pairs `open` accepts. A descriptor is `Inherited`, `Pipe(k)` or
`File(name)`. A launched child is recorded as a `Launch`: the argv `execvp`
receives, its stdin/stdout, how its redirection scan ended, and whether it runs
in the background. The lines the user types are a sequence passed to `Session`.

Facts about the code that the model keeps:
- The shell has no job table and no `jobs`, `fg` or `bg`.
- `strtok` on `"|"` skips empty pieces, so `a||b` has two stages and no empty stage.
- Only the operator slot is overwritten with NULL; the file name is not removed.
  This cuts the argv at the operator all the same.
- A missing file name or a failed `open` makes the child exec the argv as it
  stands then, operator included.

## Model

| member | source | states |
|---|---|---|
| `Argv.CountArgs` | src/main.c:57-60 | The counting loop stops at the first NULL slot: that index is in bounds, holds NULL, no slot before it does, and it equals the argv length. |
| `Argv.WordsAfterClear` | src/main.c:63 | Writing NULL into slot k cuts the visible argv to its first k words when k is inside it, and changes nothing visible otherwise. |
| `Tokenizer.SplitWellFormed` | src/main.c:28-43 | Every token is non-empty and contains no delimiter. |
| `Tokenizer.SplitEmptyIff` | src/main.c:28-44 | A line yields zero tokens (`tokens[0] == NULL`) exactly when it is empty or all delimiters. |
| `Tokenizer.SplitOfInterleave` | src/main.c:28-43 | Maximal runs: for any line written as non-empty delimiter-free tokens separated by delimiter runs (non-empty between tokens), the tokenizer returns exactly those tokens, in order. |
| `Tokenizer.SplitJoinRoundTrip` | src/main.c:18-46 | Tokenizing is idempotent: re-tokenizing the tokens joined by single spaces gives the same tokens. |
| `Tokenizer.StrTok` | src/main.c:28-42 | One strtok call skips delimiters and returns the next non-empty delimiter-free run; the tokens still to come are exactly that run followed by the tokens after the resume point, or none when it finds nothing. |
| `Tokenizer.Grow` | src/main.c:35-36 | realloc gives a buffer of the requested size whose first slots are the old buffer's. |
| `Tokenizer.Push` | src/main.c:30-41 | Stores the token in the next slot and keeps the earlier slots. Afterwards the buffer has a slot after the token, is a multiple of 64 long, and exceeds the token count by at most 64. |
| `Tokenizer.SplitLine` | src/main.c:18-46 | The buffer holds the line's tokens in order, then NULL. Its size is a multiple of 64 that exceeds the token count by at most 64, so the terminating NULL always has a slot. |
| `Redirection.Scan` | src/main.c:170-203 | The scan stops at the first NULL (completed), at an operator with no following name (missing file name), or at an operator whose `open` fails. Every slot it passed is non-NULL. |
| `Redirection.ScanStopsAtFirstError` | src/main.c:173-199 | Every operator the scan passed had a file name after it, and `open` accepted that name. So the scan stops at the first missing name or failed `open`, as the early returns do. |
| `Redirection.ScanLastWins` | src/main.c:172-201 | After the scan, stdout is the file after the last `>` and stdin the file after the last `<` passed before it stopped, else what they were before. The reference function reads from the right. |
| `Redirection.ScanEdits` | src/main.c:174-199 | The only edits are NULLs over the operators passed; the operator the scan failed at keeps its slot, and nothing is rolled back. |
| `Redirection.EffectiveArgv` | src/main.c:185-199 | The argv `execvp` sees ends just before the first operator the scan got past, or is unchanged when there was none. |
| `Redirection.ScanWithoutOperators` | src/main.c:170-203 | An argv with no `<` or `>` passes through unchanged, with both descriptors unchanged. |
| `Redirection.ScanExtend` | src/main.c:172 | The scan never reads past the first NULL; slots after it come back unchanged. |
| `Redirection.HandleRedirection` | src/main.c:170-203 | The in-place loop leaves the buffer, descriptors, stop index and outcome exactly as `Scan` describes. |
| `Launcher.StripAmp` | src/main.c:57-64 | `background` holds exactly when the argv is non-empty and its last word is `&`. Then the argv loses exactly that word; every other slot, including any other `&`, is kept. |
| `Launcher.AmpElsewhereIgnored` | src/main.c:61-64 | A `&` that is not the last word stays in the argv, and the command runs in the foreground. |
| `Launcher.StripBackground` | src/main.c:56-64 | The in-place strip leaves the buffer and `background` as `StripAmp` says. |
| `Launcher.PlainCommand` | src/main.c:51-86 | A command with no `<`, `>` or trailing `&` launches in the foreground with exactly its words and the shell's own descriptors. |
| `Launcher.StripAmpExtend` | src/main.c:57-64 | The `&` check reads nothing past the argv's NULL terminator. |
| `Launcher.ExecSpecExtend` | src/main.c:57-68 | `execute` reads nothing past the argv's NULL terminator. |
| `Launcher.Execute` | src/main.c:51-86 | Returns 1. The parent's buffer loses only the trailing `&`. The launch is redirection applied to a copy of the stripped argv, in the background exactly when `&` was stripped. |
| `Pipeline.SplitStages` | src/main.c:89-96 | As written: `cmds[..num_cmds]` holds the non-empty `\|`-free pieces of the line in order. The method requires at most 64 of them. |
| `Pipeline.StagesOverflow` | src/main.c:89-94 | A line the main loop routes to `execute_piped` has 65 stages, more than `cmds` holds. |
| `Pipeline.SplitStagesChecked` | src/main.c:89-96 | Corrected split: succeeds exactly when the line has at most 64 stages, and then holds them in order. |
| `Pipeline.PipesJoinNeighbours` | src/main.c:99-123 | A pipe written by stage i is read only by stage i+1. |
| `Pipeline.WiringChains` | src/main.c:99-123 | Stage 0 reads fd 0. Each stage but the last writes pipe i, which stage i+1 reads. The last stage keeps the shell's stdout. |
| `Pipeline.StageWithoutRedirection` | src/main.c:104-117 | A stage with no `<` or `>` launches its tokens with exactly the pipe wiring. |
| `Pipeline.LaunchStage` | src/main.c:104-119 | A stage's child tokenizes its text and applies redirection on top of the wiring, as `StageSpec` says. |
| `Pipeline.LaunchStages` | src/main.c:98-125 | The stage loop launches one child per stage, in order. Child k runs stage k's text, reads pipe k-1 (fd 0 for the first stage) and writes pipe k (the shell's stdout for the last stage), both carried by `in_fd`. |
| `Pipeline.ExecutePiped` | src/main.c:88-127 | Returns 1. The launches are one per stage, in order, each wired by `in_fd` as `Wiring` says; none is in the background. |
| `Shell.Cd` | src/main.c:140-149 | Returns 1. Changes to the first argument when there is one; otherwise reports the missing argument. |
| `Shell.Help` | src/main.c:151-159 | Returns 1 and shows the banner, whatever the arguments. |
| `Shell.ShellExit` | src/main.c:161-163 | Returns 0, the only status that ends the loop. |
| `Shell.DispatchStatus` | src/main.c:129-138 | `dispatch` returns 0 exactly when the first word is `exit`, and 1 otherwise (an empty argv included). `execute` runs exactly when the first word is not `cd`, `help` or `exit`. |
| `Shell.DispatchSpecExtend` | src/main.c:129-138 | `dispatch` reads nothing past the NULL terminator. |
| `Shell.Dispatch` | src/main.c:129-138 | The routing method returns the status and action `DispatchSpec` gives. The buffer loses its trailing `&` when `execute` runs, and is untouched on every other path. |
| `Shell.Truncate` | src/main.c:222 | The line is the input's prefix up to its first newline: a prefix, free of `'\n'`, and followed by `'\n'` when shorter than the input. |
| `Shell.LineStatus` | src/main.c:224-236 | A line gives status 0 exactly when it has no `\|` before its newline and its first word is `exit`; any other line gives 1. |
| `Shell.PipedLineIgnoresBuiltins` | src/main.c:225-226 | A line with `\|` goes to `execute_piped`, so no stage is a built-in or runs in the background. |
| `Shell.ProcessLine` | src/main.c:222-231 | One turn of the loop produces what `LineSpec` describes for the line. |
| `Shell.Session` | src/main.c:214-237 | Every line up to and including the first exit line is processed in order, and the loop stops there. If there is no exit line, every line is processed and the input running out ends the session. |

## Findings

| source | as written | input that shows it | evidently intended | confidence | as-written member | corrected member |
|---|---|---|---|---|---|---|
| src/main.c:89-94 | `cmds[num_cmds++] = cmd` stores each `\|`-separated piece into the 64-slot `cmds` array with no bound check. | `a\|a\|…\|` with 65 copies of `a\|`: 65 stages, so the 65th write lands past `cmds[63]`. | Refuse a line with more stages than `cmds` holds. | not executed; the overflow follows from the array size and the missing check | `Pipeline.StagesOverflow` | `Pipeline.SplitStagesChecked` |

`Pipeline.SplitStages` models the code as written, with at most 64 stages as
its precondition. `Pipeline.StagesOverflow` shows a line that the main loop
routes to `execute_piped` and that breaks that precondition. The rest of the
model (`ExecutePiped`, `PipedSpec`, `Session`) uses `SplitStagesChecked`. A
line with more than 64 stages launches nothing and returns status 1.

## Left out

- `fork`, `execvp`, `waitpid`, `wait`, `pipe`, `dup2`, `close`, `open` and `chdir` are not performed. Their effects are modelled as the recorded `Launch`, the abstract descriptors, the `openable` oracle and the `ChangeDir` action.
- `fork` always succeeds in the model. The `pid < 0` branch of `execute` and the failed-fork path of `execute_piped` (no child, but `in_fd` still advances) are not modelled.
- A failed `execvp` (including an empty argv, where `args[0]` is NULL) shows up only as the recorded argv; the child's exit status is not modelled.
- Process ordering is not modelled. This covers the parent's `wait(NULL)` after each stage fork, the blocking `waitpid` loop for foreground commands, the `[background pid ...]` notice, and the pipe read ends the parent never closes.
- `open` with `O_CREAT | O_TRUNC` creates or truncates the file even when a later step fails. File-system effects are not modelled. `openable` is a fixed set, so two opens of one name always agree.
- The `SIGINT` handler and the ignored `SIGTSTP` are asynchronous and are left out.
- Console I/O is left out: the prompt, the help banner, error messages and `getline` itself. The input is a sequence of lines. A `getline` failure is modelled as the input running out (`InputFailed`), after which the source exits with a failure status.
- `malloc` and `realloc` always succeed; the allocation-error exits are not modelled.
- `strtok` writes NULs into the line, and tokens point into it. In the model tokens are separate string values, so aliasing between tokens and the line is not captured.
- Lines are sequences of characters. A NUL byte inside a line read by `getline`, which would end the C string early, is not modelled. Neither is byte-level handling of multi-byte characters.
- `Pipeline.ExecutePiped`: for a line of more than 64 stages, the model does the corrected thing (launches nothing). The source's out-of-bounds write is undefined behaviour and is not modelled beyond `Pipeline.StagesOverflow`.
- Quoting, escaping, globbing, variable expansion and job control are not in the source and are not modelled.
