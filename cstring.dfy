// NUL-terminated character buffers, as the C library sees them.
// A "pointer" into a buffer is an index; the C string at that index runs up to
// the first NUL at or after it.

module CString {

  const NUL: char := '\0'

  /** The buffer holds a NUL at or after index p, so a C string starts at p. */
  predicate Terminated(buf: seq<char>, p: nat)
  {
    p <= |buf| && NUL in buf[p..]
  }

  /** The longest prefix of s that does not contain c. */
  function Before(s: string, c: char): (r: string)
    ensures r <= s
    ensures c !in r
    ensures |r| == |s| || s[|r|] == c
    decreases |s|
  {
    if s == [] || s[0] == c then [] else [s[0]] + Before(s[1..], c)
  }

  /** The three facts Before ensures single out its result. */
  lemma {:induction false} BeforeUnique(s: string, c: char, r: string)
    requires r <= s && c !in r && (|r| == |s| || s[|r|] == c)
    ensures r == Before(s, c)
    decreases |s|
  {
    if s != [] && s[0] != c {
      assert r != [] by { assert |r| == |s| || s[|r|] == c; }
      assert r[0] == s[0];
      BeforeUnique(s[1..], c, r[1..]);
      assert r == [r[0]] + r[1..];
    }
  }

  /** The text of a byte sequence read as a C string: everything before its first NUL. */
  function Text(bytes: seq<char>): (s: string)
    ensures s <= bytes && NUL !in s
    ensures |s| == |bytes| || bytes[|s|] == NUL
  {
    Before(bytes, NUL)
  }

  /** Index of the NUL that ends the C string starting at p (strlen(buf + p) == NulFrom(buf, p) - p). */
  function NulFrom(buf: seq<char>, p: nat): (i: nat)
    requires Terminated(buf, p)
    ensures p <= i < |buf| && buf[i] == NUL
    ensures forall k :: p <= k < i ==> buf[k] != NUL
    decreases |buf| - p
  {
    if buf[p] == NUL then p
    else
      assert NUL in buf[p + 1..] by { assert buf[p..] == [buf[p]] + buf[p + 1..]; }
      NulFrom(buf, p + 1)
  }

  /** The C string that starts at index p of the buffer. */
  function CStr(buf: seq<char>, p: nat): (s: string)
    requires Terminated(buf, p)
    ensures NUL !in s
    ensures p + |s| < |buf| && buf[p..p + |s|] == s && buf[p + |s|] == NUL
  {
    buf[p..NulFrom(buf, p)]
  }

  /** strspn(buf + p, accept) as an index: the first position at or after p
      whose character is NUL or not in accept. */
  function Strspn(buf: seq<char>, p: nat, accept: string): (i: nat)
    requires Terminated(buf, p)
    ensures p <= i <= NulFrom(buf, p)
    ensures forall k :: p <= k < i ==> buf[k] in accept
    ensures buf[i] == NUL || buf[i] !in accept
    decreases |buf| - p
  {
    if buf[p] == NUL || buf[p] !in accept then p
    else
      assert NUL in buf[p + 1..] by { assert buf[p..] == [buf[p]] + buf[p + 1..]; }
      Strspn(buf, p + 1, accept)
  }

  /** strcspn(buf + p, reject) as an index: the first position at or after p
      whose character is NUL or in reject. */
  function Strcspn(buf: seq<char>, p: nat, reject: string): (i: nat)
    requires Terminated(buf, p)
    ensures p <= i <= NulFrom(buf, p)
    ensures forall k :: p <= k < i ==> buf[k] !in reject
    ensures buf[i] == NUL || buf[i] in reject
    decreases |buf| - p
  {
    if buf[p] == NUL || buf[p] in reject then p
    else
      assert NUL in buf[p + 1..] by { assert buf[p..] == [buf[p]] + buf[p + 1..]; }
      Strcspn(buf, p + 1, reject)
  }

  /** A pointer into the middle of a C string ends at the same NUL. */
  lemma SameEnd(buf: seq<char>, p: nat, q: nat)
    requires Terminated(buf, p) && p <= q <= NulFrom(buf, p)
    ensures Terminated(buf, q) && NulFrom(buf, q) == NulFrom(buf, p)
  {
    assert buf[q..][NulFrom(buf, p) - q] == NUL;
  }

  /** Strspn and Strcspn with the single delimiter ' ', stated on characters. */
  lemma SpaceScans(buf: seq<char>, p: nat)
    requires Terminated(buf, p)
    ensures var a := Strspn(buf, p, " ");
      (forall k :: p <= k < a ==> buf[k] == ' ') && buf[a] != ' '
    ensures var e := Strcspn(buf, p, " ");
      (forall k :: p <= k < e ==> buf[k] != ' ') && (buf[e] == NUL || buf[e] == ' ')
  {
  }

  /** A word scanned with Strcspn(…, " ") that does not reach the NUL stops at a space before it. */
  lemma WordStopsAtSpace(buf: seq<char>, p: nat)
    requires Terminated(buf, p)
    ensures var e := Strcspn(buf, p, " ");
      buf[e] != NUL ==> buf[e] == ' ' && e < NulFrom(buf, p)
  {
  }

  /** A buffer that holds s at p followed by a NUL holds exactly the C string s at p. */
  lemma CStrIs(buf: seq<char>, p: nat, s: string)
    requires p + |s| < |buf| && buf[p..p + |s|] == s && buf[p + |s|] == NUL && NUL !in s
    ensures Terminated(buf, p) && CStr(buf, p) == s
  {
    assert buf[p..][|s|] == NUL;
  }

  /** Writing beyond the NUL that ends the C string at p leaves that string alone. */
  lemma WriteAfterEnd(buf: seq<char>, p: nat, e: nat, c: char)
    requires Terminated(buf, p) && NulFrom(buf, p) < e < |buf|
    ensures Terminated(buf[e := c], p) && CStr(buf[e := c], p) == CStr(buf, p)
  {
    var s := CStr(buf, p);
    CStrIs(buf[e := c], p, s);
  }
}
