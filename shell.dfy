// What the interpreter's lines do to the process around it, line after line:
// the working directory, the children it forks and waits for, and what it
// writes to standard error. The answers of the operating system (does chdir
// succeed, does fork succeed, does execvp find the program) are inputs.

module Shell {
  import opened CString
  import opened Lexer
  import opened Commands

  /** MAX_INPUT: the size of the line buffer that fgets fills. */
  const MaxInput: nat := 1024

  /** A line written to standard error: a fixed message, or perror(prefix), which writes the prefix
      followed by the text of the operating system's error code (not modelled). */
  datatype Diag = Message(text: string) | Perror(prefix: string)

  /** The message for cd without an argument. */
  const CdExpectsArgument: Diag := Message("myshell: expected argument to \"cd\"\n")
  /** perror after a failed chdir, and in the child after a failed execvp. */
  const ShellError: Diag := Perror("myshell")
  /** perror after a failed fork. */
  const ForkError: Diag := Perror("myerror")

  /** The operating system's answers to the calls one line may make. */
  datatype Reply = Reply(chdirOk: bool, forkOk: bool, execOk: bool)

  /** cwd: the arguments of the successful chdir calls, oldest first, applied to the start directory.
      children: the argument vector of every child forked, each one waited for before the next prompt. */
  datatype State = State(cwd: seq<string>, children: seq<seq<string>>, stderr: seq<Diag>)

  /** Why the loop ended: fgets returned NULL, the exit builtin ran, or a spaces-only line
      made strcmp read through a null pointer (behaviour C leaves undefined). */
  datatype Ending = EndOfInput | ExitCommand | UndefinedBehaviour

  predicate Ends(a: Action)
  {
    a == Exit || a == NullCommand
  }

  /** What a line that does not end the loop does to the process state. */
  function Effect(st: State, a: Action, r: Reply): (st': State)
    requires !Ends(a)
    ensures a == Skip ==> st' == st
    ensures st'.cwd == st.cwd || (a.Cd? && r.chdirOk && st'.cwd == st.cwd + [a.path])
    ensures st'.children == st.children || (a.Exec? && r.forkOk && st'.children == st.children + [a.argv])
    ensures a.Exec? && r.forkOk ==> st'.children == st.children + [a.argv]
    ensures a.Cd? && r.chdirOk ==> st'.cwd == st.cwd + [a.path]
    ensures st.stderr <= st'.stderr && |st'.stderr| <= |st.stderr| + 1
    ensures a == CdMissing ==> st'.cwd == st.cwd && st'.stderr == st.stderr + [CdExpectsArgument]
    ensures a.Cd? && !r.chdirOk ==> st'.cwd == st.cwd && st'.stderr == st.stderr + [ShellError]
    ensures a.Cd? && r.chdirOk ==> st'.stderr == st.stderr
    ensures a.Exec? && !r.forkOk ==> st'.children == st.children && st'.stderr == st.stderr + [ForkError]
    ensures a.Exec? && r.forkOk ==> st'.stderr == st.stderr + (if r.execOk then [] else [ShellError])
  {
    match a
    case Skip => st
    case CdMissing => st.(stderr := st.stderr + [CdExpectsArgument])
    case Cd(dir) =>
      if r.chdirOk then st.(cwd := st.cwd + [dir])
      else st.(stderr := st.stderr + [ShellError])
    case Exec(argv) =>
      if !r.forkOk then st.(stderr := st.stderr + [ForkError])
      else if r.execOk then st.(children := st.children + [argv])
      else st.(children := st.children + [argv], stderr := st.stderr + [ShellError])
  }

  /** The action each line decides, in the order the lines are read. */
  function Actions(lines: seq<seq<char>>): (acts: seq<Action>)
    ensures |acts| == |lines|
    ensures forall i :: 0 <= i < |lines| ==> acts[i] == Decide(Text(lines[i]))
  {
    seq(|lines|, i requires 0 <= i < |lines| => Decide(Text(lines[i])))
  }

  /** The loop over the actions of the lines, each with the system's answers for it: every action
      applies its effect, until an exit, a spaces-only line or the end of input. */
  function Loop(acts: seq<Action>, replies: seq<Reply>, st: State): (r: (State, Ending))
    requires |replies| == |acts|
    ensures r.1 == EndOfInput <==> forall i :: 0 <= i < |acts| ==> !Ends(acts[i])
    ensures r.1 == ExitCommand ==> exists i :: 0 <= i < |acts| && acts[i] == Exit
    ensures r.1 == UndefinedBehaviour ==> exists i :: 0 <= i < |acts| && acts[i] == NullCommand
    ensures st.cwd <= r.0.cwd && st.children <= r.0.children && st.stderr <= r.0.stderr
    ensures |r.0.cwd| + |r.0.children| <= |st.cwd| + |st.children| + |acts|
    decreases |acts|
  {
    if acts == [] then (st, EndOfInput)
    else if acts[0] == Exit then (st, ExitCommand)
    else if acts[0] == NullCommand then (st, UndefinedBehaviour)
    else Loop(acts[1..], replies[1..], Effect(st, acts[0], replies[0]))
  }

  /** The loop of main.c over the lines fgets returns. */
  function Session(lines: seq<seq<char>>, replies: seq<Reply>, st: State): (r: (State, Ending))
    requires |replies| == |lines|
    ensures r.1 == EndOfInput <==> forall k :: 0 <= k < |lines| ==> !Ends(Decide(Text(lines[k])))
    ensures r.1 == UndefinedBehaviour ==>
      exists k :: 0 <= k < |lines| && Strip(Text(lines[k])) != [] && Tokens(Strip(Text(lines[k]))) == []
    ensures st.cwd <= r.0.cwd && st.children <= r.0.children && st.stderr <= r.0.stderr
  {
    Loop(Actions(lines), replies, st)
  }

  /** One turn of the loop on the lines left from n: a line whose action does not end the loop
      hands the following lines the state after its effect, and one that does ends it at once. */
  lemma SessionStep(lines: seq<seq<char>>, replies: seq<Reply>, st: State, n: nat)
    requires |replies| == |lines| && n < |lines|
    ensures var a := Decide(Text(lines[n]));
      Session(lines[n..], replies[n..], st) ==
        if a == Exit then (st, ExitCommand)
        else if a == NullCommand then (st, UndefinedBehaviour)
        else Session(lines[n + 1..], replies[n + 1..], Effect(st, a, replies[n]))
  {
    var acts := Actions(lines[n..]);
    assert acts[0] == Decide(Text(lines[n]));
    assert acts[1..] == Actions(lines[n + 1..]);
    assert replies[n..][0] == replies[n] && replies[n..][1..] == replies[n + 1..];
  }

  /** What Decide promises of the actions the loop applies: a child never runs a builtin or an
      empty vector, and a directory change is to a single word. */
  predicate Admissible(a: Action)
  {
    && (a.Exec? ==> 0 < |a.argv| < MaxArgs && a.argv[0] != "exit" && a.argv[0] != "cd")
    && (a.Cd? ==> IsWord(a.path))
  }

  /** No child ever ran a builtin or an empty vector, and every directory change was to a single word. */
  predicate Sane(st: State)
  {
    && (forall i :: 0 <= i < |st.children| ==>
          0 < |st.children[i]| < MaxArgs && st.children[i][0] != "exit" && st.children[i][0] != "cd")
    && (forall i :: 0 <= i < |st.cwd| ==> IsWord(st.cwd[i]))
  }

  lemma {:induction false} LoopKeepsSane(acts: seq<Action>, replies: seq<Reply>, st: State)
    requires |replies| == |acts| && Sane(st)
    requires forall i :: 0 <= i < |acts| ==> Admissible(acts[i])
    ensures Sane(Loop(acts, replies, st).0)
    decreases |acts|
  {
    if acts != [] && !Ends(acts[0]) {
      assert Admissible(acts[0]);
      assert forall i :: 0 <= i < |acts| - 1 ==> acts[1..][i] == acts[i + 1];
      LoopKeepsSane(acts[1..], replies[1..], Effect(st, acts[0], replies[0]));
    }
  }

  /** Every session keeps the state sane: builtins run inside the interpreter, never as children. */
  lemma SessionKeepsSane(lines: seq<seq<char>>, replies: seq<Reply>, st: State)
    requires |replies| == |lines| && Sane(st)
    ensures Sane(Session(lines, replies, st).0)
  {
    var acts := Actions(lines);
    forall i | 0 <= i < |acts| ensures Admissible(acts[i]) {
      assert acts[i] == Decide(Text(lines[i]));
    }
    LoopKeepsSane(acts, replies, st);
  }

  /** An exit line ends the loop on the spot: no directory change, no child, no message. */
  lemma ExitStopsAtOnce(lines: seq<seq<char>>, replies: seq<Reply>, st: State)
    requires |replies| == |lines| && lines != [] && Decide(Text(lines[0])) == Exit
    ensures Session(lines, replies, st) == (st, ExitCommand)
  {
  }

  lemma {:induction false} LoopStopsAtExit(acts: seq<Action>, replies: seq<Reply>, st: State, k: nat)
    requires |replies| == |acts| && k < |acts| && acts[k] == Exit
    ensures Loop(acts, replies, st) == Loop(acts[..k + 1], replies[..k + 1], st)
    ensures Loop(acts, replies, st).1 != EndOfInput
    decreases k
  {
    var pre, rpre := acts[..k + 1], replies[..k + 1];
    assert pre[0] == acts[0];
    if k > 0 && !Ends(acts[0]) {
      assert pre[1..] == acts[1..][..k] && rpre[1..] == replies[1..][..k];
      assert acts[1..][k - 1] == acts[k];
      LoopStopsAtExit(acts[1..], replies[1..], Effect(st, acts[0], replies[0]), k - 1);
    }
  }

  /** The lines that follow an exit, and the answers for them, change nothing. */
  lemma NothingAfterExit(lines: seq<seq<char>>, replies: seq<Reply>, st: State, k: nat)
    requires |replies| == |lines| && k < |lines|
    requires Decide(Text(lines[k])) == Exit
    ensures Session(lines, replies, st) == Session(lines[..k + 1], replies[..k + 1], st)
    ensures Session(lines, replies, st).1 != EndOfInput
  {
    LoopStopsAtExit(Actions(lines), replies, st, k);
    assert Actions(lines[..k + 1]) == Actions(lines)[..k + 1];
  }

  lemma {:induction false} LoopSkips(acts: seq<Action>, replies: seq<Reply>, st: State, k: nat, r: Reply)
    requires |replies| == |acts| && k <= |acts|
    ensures Loop(acts[..k] + [Skip] + acts[k..], replies[..k] + [r] + replies[k..], st) == Loop(acts, replies, st)
    decreases k
  {
    var acts', replies' := acts[..k] + [Skip] + acts[k..], replies[..k] + [r] + replies[k..];
    if k == 0 {
      assert acts'[0] == Skip && acts'[1..] == acts && replies'[1..] == replies;
    } else {
      assert acts'[0] == acts[0];
      if !Ends(acts[0]) {
        assert acts'[1..] == acts[1..][..k - 1] + [Skip] + acts[1..][k - 1..];
        assert replies'[1..] == replies[1..][..k - 1] + [r] + replies[1..][k - 1..];
        LoopSkips(acts[1..], replies[1..], Effect(st, acts[0], replies[0]), k - 1, r);
      }
    }
  }

  /** A line that strips to nothing may be inserted anywhere, with any answers, without effect. */
  lemma BlankLinesInert(lines: seq<seq<char>>, replies: seq<Reply>, st: State,
                        k: nat, blank: seq<char>, r: Reply)
    requires |replies| == |lines| && k <= |lines|
    requires Strip(Text(blank)) == []
    ensures Session(lines[..k] + [blank] + lines[k..], replies[..k] + [r] + replies[k..], st)
         == Session(lines, replies, st)
  {
    var acts := Actions(lines);
    var lines' := lines[..k] + [blank] + lines[k..];
    var acts' := acts[..k] + [Skip] + acts[k..];
    forall i | 0 <= i < |lines'| ensures Actions(lines')[i] == acts'[i] {
      if i < k {
        assert lines'[i] == lines[i] && acts'[i] == acts[i];
      } else if i == k {
        assert lines'[i] == blank;
      } else {
        assert lines'[i] == lines[i - 1] && acts'[i] == acts[i - 1];
      }
    }
    assert Actions(lines') == acts';
    LoopSkips(acts, replies, st, k, r);
  }

  lemma {:induction false} LoopRunsToEnd(acts: seq<Action>, replies: seq<Reply>, st: State)
    requires |replies| == |acts|
    requires forall k :: 0 <= k < |acts| ==> !Ends(acts[k])
    ensures Loop(acts, replies, st).1 == EndOfInput
    decreases |acts|
  {
    if acts != [] {
      assert !Ends(acts[0]);
      assert forall k :: 0 <= k < |acts| - 1 ==> acts[1..][k] == acts[k + 1];
      LoopRunsToEnd(acts[1..], replies[1..], Effect(st, acts[0], replies[0]));
    }
  }

  /** Without an exit line or a spaces-only line the loop runs to the end of input. */
  lemma RunsToEndOfInput(lines: seq<seq<char>>, replies: seq<Reply>, st: State)
    requires |replies| == |lines|
    requires forall k :: 0 <= k < |lines| ==> !Ends(Decide(Text(lines[k])))
    ensures Session(lines, replies, st).1 == EndOfInput
  {
    LoopRunsToEnd(Actions(lines), replies, st);
  }
}
