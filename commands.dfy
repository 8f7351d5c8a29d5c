// What one iteration of main.c's loop decides to do with the line it read.

module Commands {
  import opened CString
  import opened Lexer

  /** The outcome of one line.
      NullCommand: the line is not empty but holds only spaces, so args[0] is NULL and
      strcmp(args[0], "exit") reads through a null pointer; C leaves this undefined. */
  datatype Action =
    | Skip
    | Exit
    | CdMissing
    | Cd(path: string)
    | Exec(argv: seq<string>)
    | NullCommand

  /** The builtin checks on the argument vector: exit, then cd, else an external program. */
  function Classify(argv: seq<string>): (a: Action)
    ensures a != Skip
    ensures a == NullCommand <==> argv == []
    ensures a == Exit <==> argv != [] && argv[0] == "exit"
    ensures a == CdMissing <==> argv == ["cd"]
    ensures a.Cd? <==> |argv| >= 2 && argv[0] == "cd"
    ensures a.Cd? ==> a.path == argv[1]
    ensures a.Exec? <==> argv != [] && argv[0] != "exit" && argv[0] != "cd"
    ensures a.Exec? ==> a.argv == argv
  {
    if argv == [] then NullCommand
    else if argv[0] == "exit" then Exit
    else if argv[0] == "cd" then (if |argv| == 1 then CdMissing else Cd(argv[1]))
    else Exec(argv)
  }

  /** The whole decision for a line as read (its C-string text, newline included). */
  function Decide(raw: string): (a: Action)
    ensures a == Skip <==> Strip(raw) == []
    ensures a.Cd? ==> IsWord(a.path) && '\n' !in a.path
    ensures a.Exec? ==> 0 < |a.argv| < MaxArgs && a.argv <= Tokens(Strip(raw))
    ensures a.Exec? ==> a.argv[0] != "exit" && a.argv[0] != "cd"
    ensures a.Exec? ==> forall i :: 0 <= i < |a.argv| ==> IsWord(a.argv[i]) && '\n' !in a.argv[i]
  {
    var line := Strip(raw);
    TokensAvoid(line, 0, '\n');
    if line == [] then Skip else Classify(Argv(line))
  }

  /** A non-empty line made only of spaces reaches the undefined null comparison, and no other line does. */
  lemma SpacesOnlyIsUndefined(raw: string)
    ensures Decide(raw) == NullCommand <==>
      Strip(raw) != [] && forall k :: 0 <= k < |Strip(raw)| ==> Strip(raw)[k] == ' '
  {
    NoTokensIffSpaces(Strip(raw), 0);
  }

  /** A line whose first word is exit stops the loop, whatever follows that word. */
  lemma ExitWhateverFollows(rest: string)
    requires rest == [] || rest[0] == ' ' || rest[0] == '\n'
    ensures Decide("exit" + rest) == Exit
  {
    StripAfter("exit", rest);
    var t := Strip(rest);
    assert t == [] || t[0] == ' ';
    FirstToken("exit", t);
  }

  /** The words of "cd <path><t>" when t is empty or starts with a space. */
  lemma CdWords(path: string, t: string)
    requires IsWord(path)
    requires t == [] || t[0] == ' '
    ensures Tokens("cd " + path + t) == ["cd", path] + Tokens(t)
  {
    var x := path + t;
    FirstToken(path, t);
    LeadingSpace(x);
    FirstToken("cd", " " + x);
    CdLine(path, t);
  }

  lemma CdLine(path: string, t: string)
    ensures "cd " + path + t == "cd" + (" " + (path + t))
  {
  }

  /** cd followed by a word changes to exactly that word; later words are ignored. */
  lemma CdTakesSecondWord(path: string, rest: string)
    requires IsWord(path) && '\n' !in path
    requires rest == [] || rest[0] == ' ' || rest[0] == '\n'
    ensures Decide("cd " + path + rest) == Cd(path)
  {
    var head := "cd " + path;
    assert '\n' !in head;
    StripAfter(head, rest);
    var t := Strip(rest);
    assert t == [] || t[0] == ' ';
    CdWords(path, t);
  }

  /** cd followed only by spaces is a cd without argument. */
  lemma CdWithoutArgument(spaces: string, rest: string)
    requires forall k :: 0 <= k < |spaces| ==> spaces[k] == ' '
    requires rest == [] || rest[0] == '\n'
    ensures Decide("cd" + spaces + rest) == CdMissing
  {
    assert '\n' !in spaces;
    StripAfter("cd" + spaces, rest);
    assert Strip(rest) == [];
    assert Strip("cd" + spaces + rest) == "cd" + spaces;
    assert spaces == [] || spaces[0] == ' ';
    FirstToken("cd", spaces);
    NoTokensIffSpaces(spaces, 0);
  }

  /** Any other command runs with exactly its words as argument vector: all of them when there
      are at most MAX_ARGS - 1, and the first MAX_ARGS - 1 otherwise. */
  lemma ExecKeepsWords(ws: seq<string>, rest: string)
    requires ws != [] && ws[0] != "exit" && ws[0] != "cd"
    requires forall i :: 0 <= i < |ws| ==> IsWord(ws[i]) && '\n' !in ws[i]
    requires rest == [] || rest[0] == '\n'
    ensures |ws| < MaxArgs ==> Decide(Join(ws) + rest) == Exec(ws)
    ensures |ws| >= MaxArgs ==> Decide(Join(ws) + rest) == Exec(ws[..MaxArgs - 1])
  {
    JoinHasNoNewline(ws);
    StripAfter(Join(ws), rest);
    assert Strip(rest) == [];
    assert Strip(Join(ws) + rest) == Join(ws) + [];
    assert Join(ws) + [] == Join(ws);
    TokensOfJoin(ws);
  }

  lemma {:induction false} JoinHasNoNewline(ws: seq<string>)
    requires forall i :: 0 <= i < |ws| ==> '\n' !in ws[i]
    ensures '\n' !in Join(ws)
    decreases |ws|
  {
    if |ws| > 1 {
      JoinHasNoNewline(ws[1..]);
    }
  }
}
