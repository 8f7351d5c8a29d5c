// main.c's loop as it runs: the buffer input[] is changed in place, strtok cuts it
// into words, and args[] collects pointers to them. A pointer is an index into input[].

module MainLoop {
  import opened CString
  import opened Lexer
  import opened Commands
  import opened Shell

  /** A char * into input[]: NULL, or the index it points at. */
  datatype Ptr = Null | At(i: nat)

  /** What one strtok(…, " ") call returns, the position it saves for the next call, and the buffer after it. */
  datatype Cut = Cut(token: Ptr, save: nat, buf: seq<char>)

  /** strtok as the C library implements it: skip the leading spaces; at the end of the string
      return NULL; otherwise the token runs to the next space, which is overwritten with NUL,
      and the next call starts just after it. */
  function StrtokOn(buf: seq<char>, p: nat): (c: Cut)
    requires Terminated(buf, p)
    ensures |c.buf| == |buf| && p <= c.save
    ensures c.token == Null ==> c.buf == buf
  {
    var a := Strspn(buf, p, " ");
    if buf[a] == NUL then Cut(Null, a, buf)
    else
      var e := Strcspn(buf, a, " ");
      if buf[e] == NUL then Cut(At(a), e, buf)
      else Cut(At(a), e + 1, buf[e := NUL])
  }

  /** Where strtok's token starts: NULL after nothing but spaces up to the NUL; otherwise the
      first character after the leading spaces, which is neither a space nor NUL. */
  lemma StrtokSkips(buf: seq<char>, p: nat)
    requires Terminated(buf, p)
    ensures var c := StrtokOn(buf, p);
      c.token == Null ==> buf[c.save] == NUL && forall k :: p <= k < c.save ==> buf[k] == ' '
    ensures var c := StrtokOn(buf, p);
      c.token.At? ==>
        && p <= c.token.i < |buf| && buf[c.token.i] != ' ' && buf[c.token.i] != NUL
        && forall k :: p <= k < c.token.i ==> buf[k] == ' '
  {
    SpaceScans(buf, p);
  }

  /** Where strtok's token ends: the next call starts after the token and within the string, and
      the only change to the buffer is the space after the token, overwritten with NUL. */
  lemma StrtokEnds(buf: seq<char>, p: nat)
    requires Terminated(buf, p)
    ensures var c := StrtokOn(buf, p);
      c.token.At? ==>
        && c.token.i < c.save <= NulFrom(buf, p)
        && (c.buf == buf || (buf[c.save - 1] == ' ' && c.buf == buf[c.save - 1 := NUL]))
  {
    var a := Strspn(buf, p, " ");
    if buf[a] != NUL {
      SameEnd(buf, p, a);
      WordStopsAtSpace(buf, a);
      var e := Strcspn(buf, a, " ");
      if buf[e] != NUL {
        assert StrtokOn(buf, p) == Cut(At(a), e + 1, buf[e := NUL]);
      }
    }
  }

  /** The buffer still holds the line from `save` to its end, followed by the NUL that ends it. */
  ghost predicate Pending(buf: seq<char>, line: string, save: nat)
  {
    && save <= |line| < |buf| && buf[|line|] == NUL && NUL !in line
    && forall k :: save <= k < |line| ==> buf[k] == line[k]
  }

  lemma {:induction false} StrspnOnLine(buf: seq<char>, line: string, p: nat)
    requires Pending(buf, line, p)
    ensures Terminated(buf, p) && Strspn(buf, p, " ") == SpaceRun(line, p)
    decreases |line| - p
  {
    assert buf[p..][|line| - p] == NUL;
    if p < |line| && line[p] == ' ' {
      StrspnOnLine(buf, line, p + 1);
    }
  }

  lemma {:induction false} StrcspnOnLine(buf: seq<char>, line: string, p: nat)
    requires Pending(buf, line, p)
    ensures Terminated(buf, p) && Strcspn(buf, p, " ") == WordEnd(line, p)
    decreases |line| - p
  {
    assert buf[p..][|line| - p] == NUL;
    if p < |line| && line[p] != ' ' {
      assert line[p] != NUL by { assert line[p] in line; }
      StrcspnOnLine(buf, line, p + 1);
    }
  }

  /** Every C string of buf that ends at or before p is still there, unchanged, in buf'. */
  ghost predicate Keeps(buf: seq<char>, buf': seq<char>, p: nat)
  {
    forall q {:trigger Terminated(buf', q)} :: Terminated(buf, q) && NulFrom(buf, q) <= p ==>
      Terminated(buf', q) && NulFrom(buf', q) == NulFrom(buf, q) && CStr(buf', q) == CStr(buf, q)
  }

  lemma WriteKeeps(buf: seq<char>, p: nat, e: nat)
    requires p <= e < |buf| && buf[e] != NUL
    ensures Keeps(buf, buf[e := NUL], p)
  {
    forall q | Terminated(buf, q) && NulFrom(buf, q) <= p
      ensures Terminated(buf[e := NUL], q) && NulFrom(buf[e := NUL], q) == NulFrom(buf, q)
      ensures CStr(buf[e := NUL], q) == CStr(buf, q)
    {
      WriteAfterEnd(buf, q, e, NUL);
    }
  }

  /** What a strtok call from p does to the line, in the line's own terms. */
  ghost predicate NextWord(buf: seq<char>, line: string, p: nat, c: Cut)
    requires p <= |line|
  {
    && p <= c.save && Pending(c.buf, line, c.save)
    && (c.token == Null <==> TokensFrom(line, p) == [])
    && (c.token.At? ==>
          && Terminated(c.buf, c.token.i)
          && NulFrom(c.buf, c.token.i) <= c.save
          && TokensFrom(line, p) == [CStr(c.buf, c.token.i)] + TokensFrom(line, c.save))
  }

  /** The word from a to e, where e is a space or the end of the line. */
  lemma WordAt(buf: seq<char>, line: string, a: nat, e: nat)
    requires Pending(buf, line, a) && a <= e <= |line|
    ensures buf[a..e] == line[a..e] && NUL !in line[a..e]
  {
    forall j | 0 <= j < e - a ensures line[a..e][j] != NUL { assert line[a + j] in line; }
  }

  /** strtok on a line with no word left. */
  lemma StrtokAtEnd(buf: seq<char>, line: string, p: nat)
    requires Pending(buf, line, p) && SpaceRun(line, p) == |line|
    ensures NextWord(buf, line, p, Cut(Null, |line|, buf))
  {
  }

  /** strtok on the last word of the line, which the terminating NUL already ends. */
  lemma StrtokLastWord(buf: seq<char>, line: string, p: nat, a: nat)
    requires Pending(buf, line, p) && a == SpaceRun(line, p) < |line| && WordEnd(line, a) == |line|
    ensures NextWord(buf, line, p, Cut(At(a), |line|, buf))
  {
    var e := |line|;
    WordAt(buf, line, a, e);
    CStrIs(buf, a, line[a..e]);
    assert TokensFrom(line, e) == [];
  }

  /** strtok on a word followed by a space, which it overwrites with NUL. */
  lemma StrtokCutsWord(buf: seq<char>, line: string, p: nat, a: nat, e: nat)
    requires Pending(buf, line, p) && a == SpaceRun(line, p) < |line| && e == WordEnd(line, a) < |line|
    ensures NextWord(buf, line, p, Cut(At(a), e + 1, buf[e := NUL]))
  {
    CutWord(buf, line, p, a, e);
    CutTokens(line, p, a, e);
  }

  lemma CutTokens(line: string, p: nat, a: nat, e: nat)
    requires p <= |line| && a == SpaceRun(line, p) < |line| && e == WordEnd(line, a) < |line|
    ensures TokensFrom(line, p) == [line[a..e]] + TokensFrom(line, e + 1)
  {
    assert TokensFrom(line, p) == [line[a..e]] + TokensFrom(line, e);
    TokensFromSpace(line, e);
  }

  /** The NUL written at e ends the word that starts at a, and the line after e is still in place. */
  lemma CutWord(buf: seq<char>, line: string, p: nat, a: nat, e: nat)
    requires Pending(buf, line, p) && p <= a <= e < |line|
    ensures Pending(buf[e := NUL], line, e + 1)
    ensures Terminated(buf[e := NUL], a) && NulFrom(buf[e := NUL], a) == e
    ensures CStr(buf[e := NUL], a) == line[a..e]
  {
    var buf' := buf[e := NUL];
    WordAt(buf, line, a, e);
    assert buf'[a..e] == line[a..e];
    CStrIs(buf', a, line[a..e]);
  }

  /** Each strtok call hands out the next word of the line, leaves the rest of the line in
      place for the next call, and leaves alone every C string that ends before its start. */
  lemma StrtokNextWord(buf: seq<char>, line: string, p: nat)
    requires Pending(buf, line, p)
    ensures Terminated(buf, p) && NextWord(buf, line, p, StrtokOn(buf, p))
    ensures Keeps(buf, StrtokOn(buf, p).buf, p)
  {
    StrspnOnLine(buf, line, p);
    var a := SpaceRun(line, p);
    if a == |line| {
      assert buf[a] == NUL;
      assert StrtokOn(buf, p) == Cut(Null, |line|, buf);
      StrtokAtEnd(buf, line, p);
    } else {
      assert buf[a] == line[a];
      assert line[a] != NUL by { assert line[a] in line; }
      StrcspnOnLine(buf, line, a);
      var e := WordEnd(line, a);
      if e < |line| {
        assert buf[e] == line[e] != NUL;
        assert StrtokOn(buf, p) == Cut(At(a), e + 1, buf[e := NUL]);
        StrtokCutsWord(buf, line, p, a, e);
        WriteKeeps(buf, p, e);
      } else {
        assert buf[e] == NUL;
        assert StrtokOn(buf, p) == Cut(At(a), e, buf);
        StrtokLastWord(buf, line, p, a);
      }
    }
  }

  /** strtok(str, " "), or strtok(NULL, " ") when str is NULL, with its saved position explicit. */
  method Strtok(input: array<char>, str: Ptr, save: nat) returns (token: Ptr, next: nat)
    requires Terminated(input[..], if str.At? then str.i else save)
    modifies input
    ensures Cut(token, next, input[..]) == StrtokOn(old(input[..]), if str.At? then str.i else save)
  {
    var p := if str.At? then str.i else save;
    var a := Strspn(input[..], p, " ");
    if input[a] == NUL {
      return Null, a;
    }
    var e := Strcspn(input[..], a, " ");
    if input[e] == NUL {
      return At(a), e;
    }
    input[e] := NUL;
    return At(a), e + 1;
  }

  /** input[strcspn(input, "\n")] = 0 */
  method StripNewline(input: array<char>)
    requires Terminated(input[..], 0)
    modifies input
    ensures Terminated(input[..], 0)
    ensures CStr(input[..], 0) == Strip(CStr(old(input[..]), 0))
    ensures input[..] == old(input[..])[Strcspn(old(input[..]), 0, "\n") := NUL]
  {
    ghost var s := CStr(input[..], 0);
    var n := Strcspn(input[..], 0, "\n");
    assert s[..n] == input[..n];
    BeforeUnique(s, '\n', s[..n]);
    input[n] := NUL;
    CStrIs(input[..], 0, s[..n]);
  }

  /** args[0..count) point at C strings and args[count] is NULL. */
  predicate Vector(buf: seq<char>, ptrs: seq<Ptr>, count: nat)
  {
    && count < |ptrs| && ptrs[count] == Null
    && forall k :: 0 <= k < count ==> ptrs[k].At? && Terminated(buf, ptrs[k].i)
  }

  /** The strings the pointers point at. */
  function Deref(buf: seq<char>, ptrs: seq<Ptr>): (ws: seq<string>)
    requires forall k :: 0 <= k < |ptrs| ==> ptrs[k].At? && Terminated(buf, ptrs[k].i)
    ensures |ws| == |ptrs|
  {
    seq(|ptrs|, k requires 0 <= k < |ptrs| => CStr(buf, ptrs[k].i))
  }

  /** The pointer as a vector of zero or one pointers. */
  function Listed(token: Ptr): (ptrs: seq<Ptr>)
  {
    if token.At? then [token] else []
  }

  /** The pointers stored so far point, in order, at the first words of the line, and each of
      those strings ends at or before the saved position. */
  ghost predicate Stored(buf: seq<char>, ptrs: seq<Ptr>, words: seq<string>, save: nat)
  {
    && |ptrs| <= |words|
    && forall k :: 0 <= k < |ptrs| ==>
         && ptrs[k].At? && Terminated(buf, ptrs[k].i) && NulFrom(buf, ptrs[k].i) <= save
         && CStr(buf, ptrs[k].i) == words[k]
  }

  lemma StoredKeeps(buf: seq<char>, buf': seq<char>, ptrs: seq<Ptr>, words: seq<string>, p: nat, save: nat)
    requires Stored(buf, ptrs, words, p) && Keeps(buf, buf', p) && p <= save
    ensures Stored(buf', ptrs, words, save)
  {
    forall k | 0 <= k < |ptrs|
      ensures Terminated(buf', ptrs[k].i) && NulFrom(buf', ptrs[k].i) <= save
      ensures CStr(buf', ptrs[k].i) == words[k]
    {
      var q := ptrs[k].i;
      assert Terminated(buf, q) && NulFrom(buf, q) <= p;
    }
  }

  lemma StoredExtend(buf: seq<char>, ptrs: seq<Ptr>, words: seq<string>, save: nat, token: Ptr)
    requires Stored(buf, ptrs, words, save) && |ptrs| < |words|
    requires token.At? && Terminated(buf, token.i) && NulFrom(buf, token.i) <= save
    requires CStr(buf, token.i) == words[|ptrs|]
    ensures Stored(buf, ptrs + [token], words, save)
  {
    var ptrs' := ptrs + [token];
    forall k | 0 <= k < |ptrs'|
      ensures ptrs'[k].At? && Terminated(buf, ptrs'[k].i) && NulFrom(buf, ptrs'[k].i) <= save
      ensures CStr(buf, ptrs'[k].i) == words[k]
    {
      if k < |ptrs| { assert ptrs'[k] == ptrs[k]; }
    }
  }

  /** A strtok call extends the stored pointers by the next word, or finds that none is left. */
  lemma StoredStep(buf: seq<char>, line: string, ptrs: seq<Ptr>, p: nat)
    requires Pending(buf, line, p)
    requires Stored(buf, ptrs, Tokens(line), p) && TokensFrom(line, p) == Tokens(line)[|ptrs|..]
    ensures Terminated(buf, p)
    ensures var c := StrtokOn(buf, p);
      && Pending(c.buf, line, c.save)
      && Stored(c.buf, ptrs + Listed(c.token), Tokens(line), c.save)
      && TokensFrom(line, c.save) == Tokens(line)[|ptrs| + |Listed(c.token)|..]
      && (c.token == Null ==> |ptrs| == |Tokens(line)|)
  {
    StrtokNextWord(buf, line, p);
    StoredAfter(buf, line, ptrs, p, StrtokOn(buf, p));
  }

  lemma StoredAfter(buf: seq<char>, line: string, ptrs: seq<Ptr>, p: nat, c: Cut)
    requires p <= |line| && NextWord(buf, line, p, c) && Keeps(buf, c.buf, p)
    requires Stored(buf, ptrs, Tokens(line), p) && TokensFrom(line, p) == Tokens(line)[|ptrs|..]
    ensures Pending(c.buf, line, c.save)
    ensures Stored(c.buf, ptrs + Listed(c.token), Tokens(line), c.save)
    ensures TokensFrom(line, c.save) == Tokens(line)[|ptrs| + |Listed(c.token)|..]
    ensures c.token == Null ==> |ptrs| == |Tokens(line)|
  {
    var words := Tokens(line);
    StoredKeeps(buf, c.buf, ptrs, words, p, c.save);
    if c.token.At? {
      var n := |ptrs|;
      assert words[n..] == [CStr(c.buf, c.token.i)] + TokensFrom(line, c.save);
      assert words[n] == CStr(c.buf, c.token.i);
      assert words[n + 1..] == words[n..][1..];
      StoredExtend(c.buf, ptrs, words, c.save, c.token);
    } else {
      assert ptrs + Listed(c.token) == ptrs;
    }
  }

  /** The state of the tokenising loop: the pointers stored so far and the last token strtok
      returned (not yet stored) point, in order, at the first words of the line; the saved
      position still holds the words after them; a NULL token means every word is stored. */
  ghost predicate Progress(buf: seq<char>, line: string, ptrs: seq<Ptr>, token: Ptr, save: nat)
  {
    && |ptrs| <= MaxArgs - 1
    && Pending(buf, line, save)
    && Stored(buf, ptrs + Listed(token), Tokens(line), save)
    && TokensFrom(line, save) == Tokens(line)[|ptrs| + |Listed(token)|..]
    && (token == Null ==> |ptrs| == |Tokens(line)|)
  }

  /** The first strtok call, on the whole line. */
  lemma ProgressStart(buf: seq<char>, line: string)
    requires Pending(buf, line, 0)
    ensures Terminated(buf, 0)
    ensures var c := StrtokOn(buf, 0); Progress(c.buf, line, [], c.token, c.save)
  {
    StoredStep(buf, line, [], 0);
  }

  /** Storing the token and calling strtok(NULL, " ") again. */
  lemma ProgressNext(buf: seq<char>, line: string, ptrs: seq<Ptr>, token: Ptr, save: nat)
    requires Progress(buf, line, ptrs, token, save) && token.At? && |ptrs| < MaxArgs - 1
    ensures Terminated(buf, save)
    ensures var c := StrtokOn(buf, save); Progress(c.buf, line, ptrs + [token], c.token, c.save)
  {
    StoredStep(buf, line, ptrs + [token], save);
  }

  /** When the loop stops, the stored pointers are the capped argument vector. */
  lemma ProgressDone(buf: seq<char>, line: string, ptrs: seq<Ptr>, token: Ptr, save: nat)
    requires Progress(buf, line, ptrs, token, save) && (token == Null || |ptrs| == MaxArgs - 1)
    ensures forall k :: 0 <= k < |ptrs| ==> ptrs[k].At? && Terminated(buf, ptrs[k].i)
    ensures Deref(buf, ptrs) == Argv(line)
  {
    var words := Tokens(line);
    var all := ptrs + Listed(token);
    assert forall k :: 0 <= k < |ptrs| ==> all[k] == ptrs[k];
    if token.At? {
      assert |words| >= |all| == MaxArgs;
    }
    assert Argv(line) == words[..|ptrs|];
  }

  /** Closing the stored pointers with NULL makes an argument vector. */
  lemma NullTerminated(buf: seq<char>, args: seq<Ptr>, stored: seq<Ptr>)
    requires |stored| < |args| && args[..|stored|] == stored && args[|stored|] == Null
    requires forall k :: 0 <= k < |stored| ==> stored[k].At? && Terminated(buf, stored[k].i)
    ensures Vector(buf, args, |stored|)
  {
    assert forall k :: 0 <= k < |stored| ==> args[k] == stored[k];
  }

  lemma SlotAppend(slots: seq<Ptr>, i: nat, x: Ptr)
    requires i < |slots|
    ensures slots[i := x][..i + 1] == slots[..i] + [x]
  {
  }

  /** The tokenising loop: the first strtok call on input, then one call per stored word
      while fewer than MAX_ARGS - 1 are stored. */
  method StoreWords(input: array<char>, args: array<Ptr>) returns (i: nat, token: Ptr, save: nat)
    requires Terminated(input[..], 0) && args.Length == MaxArgs
    modifies input, args
    ensures i <= MaxArgs - 1
    ensures Progress(input[..], CStr(old(input[..]), 0), args[..i], token, save) && (token == Null || i == MaxArgs - 1)
  {
    ghost var line := CStr(input[..], 0);
    assert Pending(input[..], line, 0);
    ProgressStart(input[..], line);
    i := 0;
    token, save := Strtok(input, At(0), 0);
    while token != Null && i < MaxArgs - 1
      invariant 0 <= i <= MaxArgs - 1
      invariant Progress(input[..], line, args[..i], token, save)
    {
      ghost var buf, slots := input[..], args[..];
      ProgressNext(buf, line, slots[..i], token, save);
      ghost var stored := slots[..i] + [token];
      SlotAppend(slots, i, token);
      args[i] := token;
      i := i + 1;
      assert args[..i] == stored;
      token, save := Strtok(input, Null, save);
      // Strtok modifies only input: the stored pointers are still those of args[..i]
      assert args[..i] == stored;
    }
  }

  /** The tokenising loop, then the NULL that closes args[]. */
  method SplitArgs(input: array<char>, args: array<Ptr>) returns (count: nat)
    requires Terminated(input[..], 0) && args.Length == MaxArgs
    modifies input, args
    ensures Vector(input[..], args[..], count)
    ensures Deref(input[..], args[..count]) == Argv(CStr(old(input[..]), 0))
  {
    ghost var line := CStr(input[..], 0);
    var token, save;
    count, token, save := StoreWords(input, args);
    ghost var stored := args[..count];
    args[count] := Null;
    assert args[..count] == args[..][..count] == stored;
    ProgressDone(input[..], line, stored, token, save);
    NullTerminated(input[..], args[..], stored);
  }

  /** The builtin checks of main.c on args[], then the external command. */
  method Dispatch(input: array<char>, args: array<Ptr>, count: nat) returns (a: Action)
    requires Vector(input[..], args[..], count)
    ensures a == Classify(Deref(input[..], args[..count]))
  {
    if args[0] == Null {
      // strcmp(args[0], "exit") with args[0] == NULL: undefined
      return NullCommand;
    }
    var command := CStr(input[..], args[0].i);
    if command == "exit" {
      return Exit;
    }
    if command == "cd" {
      if args[1] == Null {
        return CdMissing;
      }
      return Cd(CStr(input[..], args[1].i));
    }
    return Exec(Deref(input[..], args[..count]));
  }

  /** One iteration of the loop, after fgets has filled input[]: strip, skip if empty,
      tokenise, dispatch, and apply the command's effect on the process. */
  method Iterate(input: array<char>, args: array<Ptr>, st: State, r: Reply) returns (a: Action, st': State)
    requires Terminated(input[..], 0) && args.Length == MaxArgs
    modifies input, args
    ensures a == Decide(CStr(old(input[..]), 0))
    ensures st' == if Ends(a) then st else Effect(st, a, r)
  {
    StripNewline(input);
    if input[0] == NUL {
      return Skip, st;
    }
    var count := SplitArgs(input, args);
    a := Dispatch(input, args, count);
    if Ends(a) {
      return a, st;
    }
    st' := Effect(st, a, r);
  }

  /** What fgets leaves in input[] after reading `line`: its bytes, then a NUL. */
  method Load(input: array<char>, line: seq<char>)
    requires |line| < input.Length
    modifies input
    ensures input[..|line|] == line && input[|line|] == NUL
    ensures forall k :: |line| < k < input.Length ==> input[k] == old(input[k])
  {
    forall k | 0 <= k < |line| {
      input[k] := line[k];
    }
    input[|line|] := NUL;
  }

  /** One pass of the loop body from the fgets call on: the line read decides its action, which
      takes effect unless it ends the loop. */
  method Turn(input: array<char>, args: array<Ptr>, line: seq<char>, st: State, r: Reply)
    returns (a: Action, st': State)
    requires input.Length == MaxInput && args.Length == MaxArgs && |line| < MaxInput
    modifies input, args
    ensures a == Decide(Text(line))
    ensures st' == if Ends(a) then st else Effect(st, a, r)
  {
    Load(input, line);
    CStrIs(input[..], 0, Text(line));
    a, st' := Iterate(input, args, st, r);
  }

  /** The while (1) loop of main over the lines fgets returns, each with the system's answers. */
  method Run(input: array<char>, args: array<Ptr>, lines: seq<seq<char>>, replies: seq<Reply>, st0: State)
    returns (st: State, ending: Ending)
    requires input.Length == MaxInput && args.Length == MaxArgs
    requires |replies| == |lines|
    requires forall k :: 0 <= k < |lines| ==> |lines[k]| < MaxInput
    modifies input, args
    ensures (st, ending) == Session(lines, replies, st0)
  {
    ghost var goal := Session(lines, replies, st0);
    assert lines[0..] == lines && replies[0..] == replies;
    var n := 0;
    st := st0;
    while true
      invariant 0 <= n <= |lines|
      invariant goal == Session(lines[n..], replies[n..], st)
      decreases |lines| - n
    {
      if n == |lines| {
        return st, EndOfInput;
      }
      var a;
      ghost var st1 := st;
      a, st := Turn(input, args, lines[n], st, replies[n]);
      SessionStep(lines, replies, st1, n);
      if a == Exit {
        return st, ExitCommand;
      }
      if a == NullCommand {
        return st, UndefinedBehaviour;
      }
      n := n + 1;
    }
  }
}
