// The line-level meaning of main.c's first three steps: cut the line at its
// newline, then split it into words the way strtok(line, " ") does.

module Lexer {
  import opened CString

  /** MAX_ARGS: the size of the argument vector, whose last usable slot holds NULL. */
  const MaxArgs: nat := 64

  /** input[strcspn(input, "\n")] = 0: the line up to, not including, its first newline. */
  function Strip(line: string): (r: string)
    ensures r <= line && '\n' !in r
    ensures |r| == |line| || line[|r|] == '\n'
  {
    Before(line, '\n')
  }

  /** Stripping a line that holds no newline leaves it as it is; in particular stripping twice is stripping once. */
  lemma StripIdempotent(line: string)
    ensures '\n' !in line ==> Strip(line) == line
    ensures Strip(Strip(line)) == Strip(line)
  {
    if '\n' !in line {
      BeforeUnique(line, '\n', line);
    }
    BeforeUnique(Strip(line), '\n', Strip(line));
  }

  /** Stripping a newline-free head and then the rest is stripping the whole line. */
  lemma {:induction false} StripAfter(head: string, rest: string)
    requires '\n' !in head
    ensures Strip(head + rest) == head + Strip(rest)
  {
    var r := head + Strip(rest);
    assert r <= head + rest;
    assert (head + rest)[|head|..] == rest;
    BeforeUnique(head + rest, '\n', r);
  }

  /** The first index at or after p that does not hold a space (|s| if none). */
  function SpaceRun(s: string, p: nat): (q: nat)
    requires p <= |s|
    ensures p <= q <= |s|
    ensures forall k :: p <= k < q ==> s[k] == ' '
    ensures q < |s| ==> s[q] != ' '
    decreases |s| - p
  {
    if p == |s| || s[p] != ' ' then p else SpaceRun(s, p + 1)
  }

  /** The first index at or after p that holds a space (|s| if none). */
  function WordEnd(s: string, p: nat): (q: nat)
    requires p <= |s|
    ensures p <= q <= |s|
    ensures forall k :: p <= k < q ==> s[k] != ' '
    ensures q < |s| ==> s[q] == ' '
    decreases |s| - p
  {
    if p == |s| || s[p] == ' ' then p else WordEnd(s, p + 1)
  }

  /** The words of s from index p on: the maximal runs of non-space characters,
      left to right. Only ' ' separates; tabs and every other character belong to words. */
  function TokensFrom(s: string, p: nat): (ts: seq<string>)
    requires p <= |s|
    ensures forall i :: 0 <= i < |ts| ==> ts[i] != [] && ' ' !in ts[i]
    decreases |s| - p
  {
    var a := SpaceRun(s, p);
    if a == |s| then []
    else
      var e := WordEnd(s, a);
      [s[a..e]] + TokensFrom(s, e)
  }

  /** The tokens that repeated strtok(…, " ") calls return for line s. */
  function Tokens(s: string): (ts: seq<string>)
    ensures forall i :: 0 <= i < |ts| ==> IsWord(ts[i])
  {
    TokensFrom(s, 0)
  }

  /** A character that the line does not hold is in none of its words. */
  lemma {:induction false} TokensAvoid(s: string, p: nat, c: char)
    requires p <= |s| && c !in s
    ensures forall i :: 0 <= i < |TokensFrom(s, p)| ==> c !in TokensFrom(s, p)[i]
    decreases |s| - p
  {
    var a := SpaceRun(s, p);
    if a < |s| {
      var e := WordEnd(s, a);
      TokensAvoid(s, e, c);
      assert c !in s[a..e] by {
        forall j | 0 <= j < e - a ensures s[a..e][j] != c {
          assert s[a + j] in s;
        }
      }
    }
  }

  /** A space at p separates nothing: the words from p are the words from p + 1. */
  lemma TokensFromSpace(s: string, p: nat)
    requires p < |s| && s[p] == ' '
    ensures TokensFrom(s, p) == TokensFrom(s, p + 1)
  {
  }

  /** A line has no words exactly when it is made of spaces only. */
  lemma NoTokensIffSpaces(s: string, p: nat)
    requires p <= |s|
    ensures TokensFrom(s, p) == [] <==> forall k :: p <= k < |s| ==> s[k] == ' '
  {
  }

  // ---- An independent reference definition: split at every space, drop the empty pieces.

  /** The pieces of s[p..] between single spaces, empty pieces included. */
  function FieldsFrom(s: string, p: nat): (fs: seq<string>)
    requires p <= |s|
    ensures |fs| > 0
    decreases |s| - p
  {
    var i := WordEnd(s, p);
    if i == |s| then [s[p..]] else [s[p..i]] + FieldsFrom(s, i + 1)
  }

  function NonEmpty(fs: seq<string>): seq<string>
  {
    if fs == [] then []
    else if fs[0] == [] then NonEmpty(fs[1..])
    else [fs[0]] + NonEmpty(fs[1..])
  }

  lemma NonEmptyCons(f: string, rest: seq<string>)
    ensures NonEmpty([f] + rest) == (if f == [] then [] else [f]) + NonEmpty(rest)
  {
    assert ([f] + rest)[1..] == rest;
  }

  /** strtok's words are exactly the non-empty pieces between spaces, in order. */
  lemma {:induction false} TokensAreNonEmptyFields(s: string, p: nat)
    requires p <= |s|
    ensures TokensFrom(s, p) == NonEmpty(FieldsFrom(s, p))
    decreases |s| - p
  {
    if p < |s| {
      var e := WordEnd(s, p);
      if e == |s| {
        LastField(s, p);
      } else {
        TokensAreNonEmptyFields(s, e + 1);
        InnerField(s, p, e);
      }
    }
  }

  /** The piece from p runs to the end of the line. */
  lemma LastField(s: string, p: nat)
    requires p < |s| && WordEnd(s, p) == |s|
    ensures TokensFrom(s, p) == NonEmpty(FieldsFrom(s, p))
  {
    assert TokensFrom(s, |s|) == [];
    assert s[p..|s|] == s[p..];
    assert TokensFrom(s, p) == [s[p..]] + [];
    assert FieldsFrom(s, p) == [s[p..]];
    NonEmptyCons(s[p..], []);
  }

  /** The piece from p ends at the space at e; the pieces after it have the property already. */
  lemma InnerField(s: string, p: nat, e: nat)
    requires p <= e < |s| && e == WordEnd(s, p)
    requires TokensFrom(s, e + 1) == NonEmpty(FieldsFrom(s, e + 1))
    ensures TokensFrom(s, p) == NonEmpty(FieldsFrom(s, p))
  {
    TokensFromSpace(s, e);
    assert FieldsFrom(s, p) == [s[p..e]] + FieldsFrom(s, e + 1);
    NonEmptyCons(s[p..e], FieldsFrom(s, e + 1));
    if e == p {
      assert s[p..e] == [];
    } else {
      assert TokensFrom(s, p) == [s[p..e]] + TokensFrom(s, e);
    }
  }

  // ---- Nothing is lost or reordered: gluing the words together gives the line without its spaces.

  function Concat(ts: seq<string>): string
  {
    if ts == [] then [] else ts[0] + Concat(ts[1..])
  }

  function RemoveSpaces(s: string): (r: string)
  {
    if s == [] then []
    else if s[0] == ' ' then RemoveSpaces(s[1..])
    else [s[0]] + RemoveSpaces(s[1..])
  }

  lemma {:induction false} RemoveSpacesAppend(x: string, y: string)
    ensures RemoveSpaces(x + y) == RemoveSpaces(x) + RemoveSpaces(y)
    decreases |x|
  {
    if x != [] {
      assert (x + y)[1..] == x[1..] + y;
      RemoveSpacesAppend(x[1..], y);
    } else {
      assert x + y == y;
    }
  }

  lemma {:induction false} RemoveSpacesOfWord(w: string)
    requires ' ' !in w
    ensures RemoveSpaces(w) == w
    decreases |w|
  {
    if w != [] {
      RemoveSpacesOfWord(w[1..]);
      assert w == [w[0]] + w[1..];
    }
  }

  /** Concatenating the words of s[p..] in order yields s[p..] with every space removed. */
  lemma {:induction false} TokensKeepText(s: string, p: nat)
    requires p <= |s|
    ensures Concat(TokensFrom(s, p)) == RemoveSpaces(s[p..])
    decreases |s| - p
  {
    if p == |s| {
    } else if s[p] == ' ' {
      TokensFromSpace(s, p);
      TokensKeepText(s, p + 1);
      assert s[p..][1..] == s[p + 1..];
    } else {
      var e := WordEnd(s, p);
      TokensKeepText(s, e);
      assert s[p..] == s[p..e] + s[e..];
      RemoveSpacesAppend(s[p..e], s[e..]);
      RemoveSpacesOfWord(s[p..e]);
      var ts := TokensFrom(s, p);
      assert ts == [s[p..e]] + TokensFrom(s, e);
      assert ts[1..] == TokensFrom(s, e);
    }
  }

  // ---- Words separated by single spaces come back out unchanged.

  /** Words with one space between each two. */
  function Join(ws: seq<string>): string
  {
    if ws == [] then [] else if |ws| == 1 then ws[0] else ws[0] + " " + Join(ws[1..])
  }

  predicate IsWord(w: string)
  {
    w != [] && ' ' !in w
  }

  lemma {:induction false} SpaceRunShift(pre: string, s: string, p: nat)
    requires p <= |s|
    ensures SpaceRun(pre + s, |pre| + p) == |pre| + SpaceRun(s, p)
    decreases |s| - p
  {
    if p < |s| && s[p] == ' ' {
      SpaceRunShift(pre, s, p + 1);
    }
  }

  lemma {:induction false} WordEndShift(pre: string, s: string, p: nat)
    requires p <= |s|
    ensures WordEnd(pre + s, |pre| + p) == |pre| + WordEnd(s, p)
    decreases |s| - p
  {
    if p < |s| && s[p] != ' ' {
      WordEndShift(pre, s, p + 1);
    }
  }

  lemma SliceShift(pre: string, s: string, a: nat, e: nat)
    requires a <= e <= |s|
    ensures (pre + s)[|pre| + a..|pre| + e] == s[a..e]
  {
  }

  /** What precedes index |pre| has no say in the words that follow it. */
  lemma {:induction false} TokensFromShift(pre: string, s: string, p: nat)
    requires p <= |s|
    ensures TokensFrom(pre + s, |pre| + p) == TokensFrom(s, p)
    decreases |s| - p
  {
    var t := pre + s;
    SpaceRunShift(pre, s, p);
    var a := SpaceRun(s, p);
    if a < |s| {
      WordEndShift(pre, s, a);
      var e := WordEnd(s, a);
      TokensFromShift(pre, s, e);
      SliceShift(pre, s, a, e);
      var ts, tt := TokensFrom(s, p), TokensFrom(t, |pre| + p);
      assert ts == [s[a..e]] + TokensFrom(s, e);
      assert tt == [t[|pre| + a..|pre| + e]] + TokensFrom(t, |pre| + e);
    } else {
      assert SpaceRun(t, |pre| + p) == |t|;
    }
  }

  /** A word followed by nothing or by a space is the first token, and the tokens of the rest follow. */
  lemma FirstToken(w: string, rest: string)
    requires IsWord(w)
    requires rest == [] || rest[0] == ' '
    ensures Tokens(w + rest) == [w] + Tokens(rest)
  {
    var s := w + rest;
    assert s[0] == w[0];
    assert forall k :: 0 <= k < |w| ==> s[k] == w[k];
    var e := WordEnd(s, 0);
    assert forall k :: 0 <= k < |w| ==> s[k] != ' ';
    assert |w| < |s| ==> s[|w|] == ' ';
    assert s[0..e] == w;
    TokensFromShift(w, rest, 0);
  }

  /** Leading spaces produce no token. */
  lemma LeadingSpace(rest: string)
    ensures Tokens(" " + rest) == Tokens(rest)
  {
    TokensFromSpace(" " + rest, 0);
    TokensFromShift(" ", rest, 0);
  }

  /** Round trip: the words of a space-joined list of words are that list. */
  lemma {:induction false} TokensOfJoin(ws: seq<string>)
    requires forall i :: 0 <= i < |ws| ==> IsWord(ws[i])
    ensures Tokens(Join(ws)) == ws
    decreases |ws|
  {
    if |ws| == 1 {
      FirstToken(ws[0], []);
      assert ws[0] + [] == ws[0];
    } else if |ws| > 1 {
      TokensOfJoin(ws[1..]);
      assert Join(ws) == ws[0] + (" " + Join(ws[1..]));
      FirstToken(ws[0], " " + Join(ws[1..]));
      LeadingSpace(Join(ws[1..]));
    }
  }

  /** A line without spaces is a single token, tabs and all. */
  lemma OnlySpaceSeparates(s: string)
    requires IsWord(s)
    ensures Tokens(s) == [s]
  {
    FirstToken(s, []);
    assert s + [] == s;
  }

  /** The argument vector keeps the first MAX_ARGS - 1 tokens (all of them if there are no more). */
  function Capped(ts: seq<string>): (r: seq<string>)
    ensures r <= ts && |r| < MaxArgs
    ensures |r| == |ts| || |r| == MaxArgs - 1
  {
    if |ts| < MaxArgs then ts else ts[..MaxArgs - 1]
  }

  /** The words main.c places in args[] for a stripped line. */
  function Argv(line: string): (argv: seq<string>)
    ensures argv <= Tokens(line) && |argv| < MaxArgs
    ensures |Tokens(line)| < MaxArgs ==> argv == Tokens(line)
    ensures |Tokens(line)| >= MaxArgs ==> |argv| == MaxArgs - 1
  {
    Capped(Tokens(line))
  }
}
