# myshell's read loop, modelled in Dafny

`main.c` is a minimal interactive shell. It prints a prompt, reads a line with
`fgets` into a 1024-byte buffer `input` (MAX_INPUT), and cuts the line at its
first newline. It skips the line if nothing is left. Otherwise it splits the
line in place with `strtok(…, " ")` into the 64-slot pointer array `args`
(MAX_ARGS). It keeps at most 63 words and closes the vector with `NULL`. Then it
dispatches:

- `exit` leaves the loop;
- `cd` with no argument prints `myshell: expected argument to "cd"`;
- `cd` with an argument calls `chdir` on the second word and reports a failure with `perror("myshell")`;
- any other command is forked, run with `execvp` on the whole vector, and waited for.

The project has two layers, and proves them equal.

- **Specification, on values.**
  - `CString` reads a character buffer as the C library does. A pointer is an index. `NulFrom` is the position of the terminating NUL, `CStr` the string there, and `Strspn`/`Strcspn` are the two scans.
  - `Lexer` holds the line-level meaning: `Strip` (the newline cut) and `Tokens` (the words strtok returns). `Capped`/`Argv` give the 63-word vector.
  - `Commands` holds the decision per line: `Classify` on the vector, and `Decide` on the raw line, giving `Skip | Exit | CdMissing | Cd(path) | Exec(argv) | NullCommand`.
  - `Shell` holds the effect of each action on an abstract process state: the directory history, the children forked, and the diagnostics on standard error. It also holds the loop over many lines (`Session`, through `Loop` over the lines' `Actions`).
- **Imperative model, on arrays** (`MainLoop`).
  - `input` is an `array<char>` and `args` an `array<Ptr>`.
  - `StripNewline` writes the NUL in place.
  - `Strtok` is glibc's algorithm, with its saved position made explicit. It overwrites the delimiter with NUL.
  - `StoreWords` and `SplitArgs` are the `while` loop of lines 28-36. They are proved to leave in `args[0..count)` pointers to exactly `Argv(Strip(line))`, with `args[count] == NULL`.
  - `Dispatch` performs the `strcmp` checks. `Iterate` is one whole loop body, proved equal to `Decide` and `Effect`. `Run` is the `while (1)` loop, proved equal to `Session`.

A non-empty line made only of spaces passes the `strlen` check but stores no
token. `strcmp(args[0], "exit")` then reads through a null pointer, which C
leaves undefined. The model invents no behaviour for it. The line decides
`NullCommand`, and the session ends with `UndefinedBehaviour`.
`SpacesOnlyIsUndefined` proves that exactly these lines do so.

The operating system's answers are inputs (`Reply`): whether `chdir`, `fork`
and `execvp` succeed. A `State` records what the process did with them.

## Model

| member | source | states |
|---|---|---|
| CString.Text | main.c:18 | the C string `fgets` leaves for a line read is a NUL-free prefix of it, either the whole line or cut just before its first NUL |
| CString.BeforeUnique | main.c:22 | a prefix without `c` that is the whole string or stops at a `c` is unique, so `strcspn` cuts at exactly one place |
| CString.NulFrom | main.c:24 | the terminating NUL lies at or after the start, and no earlier position in between is NUL (strlen) |
| CString.CStr | main.c:24 | the C string at a pointer holds no NUL, sits in the buffer at that pointer, and is followed by a NUL |
| CString.Strspn | main.c:29 | strtok's skip: every character passed is a delimiter, and it stops at the NUL or at a non-delimiter |
| CString.Strcspn | main.c:22 | the `strcspn` scan: no character passed is in the reject set, and it stops at the NUL or at a rejected character |
| CString.CStrIs | main.c:22-33 | a buffer holding `s` followed by NUL holds exactly the C string `s` there |
| CString.WriteAfterEnd | main.c:33 | writing past the NUL that ends a string leaves that string unchanged |
| Lexer.Strip | main.c:22 | the stripped line is a prefix of the input without `'\n'`, either the whole input or cut exactly at its first `'\n'` |
| Lexer.StripIdempotent | main.c:22 | stripping changes nothing without a newline, and stripping twice is stripping once |
| Lexer.StripAfter | main.c:22 | a newline-free head survives stripping, and only the rest is cut |
| Lexer.SpaceRun | main.c:29 | strtok's leading skip: all spaces up to the returned index, and no space at it |
| Lexer.WordEnd | main.c:33 | the end of a word: no space before the returned index, and a space or the line's end at it |
| Lexer.TokensFrom | main.c:29-34 | every word is non-empty and contains no `' '` |
| Lexer.Tokens | main.c:29-34 | every token of a line is a word: non-empty, without `' '` |
| Lexer.TokensAvoid | main.c:22-34 | a character absent from the line (the stripped `'\n'`) occurs in no word |
| Lexer.NoTokensIffSpaces | main.c:24-31 | a line has no words if and only if it is made of spaces only |
| Lexer.TokensAreNonEmptyFields | main.c:29-34 | the words are exactly the non-empty pieces between single spaces, in order: runs of spaces collapse, leading and trailing spaces give no word |
| Lexer.TokensKeepText | main.c:29-34 | gluing the words back together in order gives the line with its spaces removed, so nothing is lost or reordered |
| Lexer.TokensFromShift | main.c:33 | the words after a position do not depend on what precedes it |
| Lexer.FirstToken | main.c:29 | a word followed by nothing or a space is the first token, and the tokens of the rest follow it |
| Lexer.TokensOfJoin | main.c:29-34 | round trip: splitting words joined by single spaces gives back those words |
| Lexer.OnlySpaceSeparates | main.c:29 | a line without `' '` is a single token, tabs included |
| Lexer.Capped | main.c:31 | the vector is a prefix of the words, shorter than MAX_ARGS: all the words when fewer than 64, otherwise exactly the first 63 |
| Lexer.Argv | main.c:28-36 | the vector stored for a line is a prefix of its tokens, shorter than MAX_ARGS: all of them when there are fewer than 64, otherwise exactly 63 |
| Commands.Classify | main.c:38-56 | `exit` iff the first word is `"exit"`; `cd` without argument iff the vector is `["cd"]`; `Cd` iff `cd` has a second word, which is the path; `Exec` with the whole vector iff the first word is neither builtin; the null case iff the vector is empty |
| Commands.Decide | main.c:22-56 | `Skip` iff the stripped line is empty; a `cd` path is one word without newline; an executed vector is a non-empty prefix of the line's words, shorter than MAX_ARGS, not starting with a builtin |
| Commands.SpacesOnlyIsUndefined | main.c:24-38 | the undefined null comparison happens if and only if the stripped line is non-empty and all spaces |
| Commands.ExitWhateverFollows | main.c:38-40 | `exit` followed by anything that starts with a space or newline leaves the loop |
| Commands.CdWords | main.c:42-46 | the words of `cd <path><rest>` are `cd`, the path, then the words of the rest |
| Commands.CdTakesSecondWord | main.c:42-49 | `cd` changes to exactly its second word; later words are ignored |
| Commands.CdWithoutArgument | main.c:42-44 | `cd` followed only by spaces is the missing-argument case |
| Commands.ExecKeepsWords | main.c:31-56 | any other command runs with all its words when there are at most 63, and with exactly the first 63 otherwise |
| Shell.Effect | main.c:42-65 | the directory changes only on a successful `cd`, to its path; a child is recorded only for `Exec` when `fork` succeeds; a skipped line changes nothing; `cd` without argument adds exactly its message; a failed `chdir` adds exactly `perror("myshell")` and a successful one nothing; a failed `fork` records no child and adds exactly `perror("myerror")`; a successful `fork` adds the child's `perror("myshell")` exactly when `execvp` fails; at most one diagnostic per line |
| Shell.Loop | main.c:14-67 | the loop reaches the end of input if and only if no action ends it; it stops at exit or at the null command only when one occurs; the directory history, the children and standard error only grow, and by at most one directory or child per action |
| Shell.Session | main.c:14-67 | a session reaches the end of input if and only if no line read is an exit line or a spaces-only line; undefined behaviour happens only when some line strips to a non-empty run of spaces; the state only grows |
| Shell.SessionStep | main.c:14-67 | one turn of the loop: an exit line stops with the state untouched, a spaces-only line stops as undefined, any other line applies its effect and the loop goes on with the next line |
| Shell.LoopKeepsSane | main.c:38-65 | if every action keeps its promises, no child ever runs a builtin or an empty vector, and every directory change is to one word |
| Shell.SessionKeepsSane | main.c:14-65 | the same holds for every session over any lines and any system answers |
| Shell.ExitStopsAtOnce | main.c:38-40 | an exit line ends the loop with the state untouched |
| Shell.LoopStopsAtExit | main.c:38-40 | the actions after an exit, and their answers, do not matter, and the loop does not reach the end of input |
| Shell.NothingAfterExit | main.c:38-40 | the lines after an exit line, and their answers, change nothing |
| Shell.LoopSkips | main.c:24-26 | a skipped action inserted anywhere changes nothing |
| Shell.BlankLinesInert | main.c:24-26 | a line that strips to nothing can be inserted anywhere, with any answers, without effect |
| Shell.LoopRunsToEnd | main.c:18-20 | without exit or null command, the loop ends at the end of input |
| Shell.RunsToEndOfInput | main.c:18-20 | without an exit line or a spaces-only line, the session ends only when `fgets` returns NULL |
| MainLoop.StrtokOn | main.c:29-33 | strtok keeps the buffer's length and never moves the saved position backwards; returning NULL it writes nothing |
| MainLoop.StrtokSkips | main.c:29-33 | strtok returns NULL only after nothing but spaces up to the NUL; otherwise its token is the first character after the leading spaces, neither a space nor NUL |
| MainLoop.StrtokEnds | main.c:29-33 | the next call starts after the token and within the string; the only write is a NUL over the space that ends the token |
| MainLoop.StrspnOnLine | main.c:29 | on the pending part of the line, the buffer scan `Strspn` agrees with the line's `SpaceRun` |
| MainLoop.StrcspnOnLine | main.c:33 | on the pending part of the line, the buffer scan `Strcspn` agrees with the line's `WordEnd` |
| MainLoop.WriteKeeps | main.c:33 | overwriting a delimiter at or after `p` with NUL keeps every C string that ends before `p` |
| MainLoop.StrtokCutsWord | main.c:33 | a word followed by a space is returned, NUL-terminated in place, and the next call starts after the space |
| MainLoop.StrtokNextWord | main.c:29-33 | each strtok call returns NULL exactly when no word is left, otherwise a pointer to the next word; the rest of the line stays in place and earlier strings are kept |
| MainLoop.Strtok | main.c:29 | the method's token, saved position and new buffer are those of the strtok specification |
| MainLoop.StripNewline | main.c:22 | after the write, the C string in `input` is `Strip` of the old one, and only the byte at the `strcspn` position changed |
| MainLoop.StoredStep | main.c:31-33 | one more strtok call extends the stored pointers by the next word, or finds the words exhausted |
| MainLoop.ProgressDone | main.c:31-36 | when the loop stops, the stored pointers point at exactly `Argv` of the line |
| MainLoop.NullTerminated | main.c:36 | the stored pointers followed by NULL form an argument vector |
| MainLoop.StoreWords | main.c:28-34 | the loop stops with at most 63 stored pointers, at the line's first words, with the words exhausted or 63 stored |
| MainLoop.SplitArgs | main.c:28-36 | `args[0..count)` point at exactly `Argv` of the line, and `args[count]` is NULL |
| MainLoop.Dispatch | main.c:38-56 | the `strcmp` checks on `args[]` pick `Classify` of the words it points at |
| MainLoop.Iterate | main.c:22-65 | one loop body decides `Decide` of the line read and applies `Effect` unless the line ends the loop |
| MainLoop.Turn | main.c:18-65 | one pass of the loop body from `fgets` on decides `Decide` of the line read and applies `Effect` unless the line ends the loop |
| MainLoop.Load | main.c:18 | the buffer holds the line read, followed by a NUL |
| MainLoop.Run | main.c:14-67 | the `while (1)` loop over the lines read produces exactly `Session`'s final state and reason for stopping |

## Left out

- Prompt printing and `fflush` (main.c:15-16) are terminal output with no effect on the state. They are not modelled.
- `fgets` (main.c:18) is modelled only as `Load`: one line of fewer than MAX_INPUT bytes, copied in and NUL-terminated. Lines longer than 1023 bytes, which `fgets` splits across iterations, and read errors are not modelled.
- `fork`, `execvp`, `wait` and `exit(EXIT_FAILURE)` (main.c:53-65) are process operations. Whether each one succeeds is an input. A forked child is recorded by its argument vector. A failed `execvp` adds the child's `perror` line. The program the child runs, and its exit status, are not modelled.
- `chdir` (main.c:46): whether it succeeds is an input. The working directory is the list of successful `chdir` arguments, not a resolved path.
- `perror` (main.c:47, 57, 61) is recorded with its prefix only. The text of `errno` is not modelled.
- Shell.Effect: the order of lines on standard error between parent and child is not modelled. A failed exec's message is appended to the single diagnostic stream in the parent's sequence.
- Undefined behaviour on a spaces-only line (main.c:38) is reported as the `UndefinedBehaviour` ending, not given a meaning.
- Redirection, pipes, background jobs and signal handling do not occur in `main.c` and are not modelled.
