/** Zero-terminated strings in char arrays, and the C functions on them. */
module CStrings {

  /** The part before the first `c`. */
  function Until(s: string, c: char): (t: string)
    ensures |t| <= |s| && t == s[..|t|] && c !in t && (|t| < |s| ==> s[|t|] == c)
  {
    if s == "" || s[0] == c then "" else [s[0]] + Until(s[1..], c)
  }

  lemma {:induction false} UntilStops(s: string, c: char, t: string)
    requires c !in s
    ensures Until(s + [c] + t, c) == s && Until(s, c) == s
  {
    if s == "" {
      assert s + [c] + t == [c] + t;
    } else {
      assert (s + [c] + t)[1..] == s[1..] + [c] + t;
      UntilStops(s[1..], c, t);
    }
  }

  const NUL: char := '\0'

  /** The C string that starts at `p`. */
  function CString(a: seq<char>, p: nat): string
    requires p <= |a|
  {
    Until(a[p..], NUL)
  }

  /** A terminating zero follows inside the array. */
  predicate Terminated(a: seq<char>, p: nat) {
    p <= |a| && p + |CString(a, p)| < |a|
  }

  /** The string at `p` is the chars up to a zero at distance `n`. */
  lemma CStringIs(a: seq<char>, p: nat, n: nat)
    requires p + n < |a| && a[p + n] == NUL && forall i :: p <= i < p + n ==> a[i] != NUL
    ensures CString(a, p) == a[p..p + n] && Terminated(a, p)
  {
    var s := a[p..p + n];
    assert a[p..] == s + [NUL] + a[p + n + 1..];
    UntilStops(s, NUL, a[p + n + 1..]);
  }

  lemma CStringChars(a: seq<char>, p: nat)
    requires Terminated(a, p)
    ensures var n := |CString(a, p)|;
            && CString(a, p) == a[p..p + n] && a[p + n] == NUL
            && forall i :: p <= i < p + n ==> a[i] != NUL
  {
    var s := CString(a, p);
    assert a[p..][..|s|] == a[p..p + |s|];
    assert forall i :: p <= i < p + |s| ==> a[i] == s[i - p];
    assert a[p..][|s|] == a[p + |s|];
  }

  /** strlen */
  method StrLen(buf: array<char>, p: nat) returns (n: nat)
    requires Terminated(buf[..], p)
    ensures n == |CString(buf[..], p)|
  {
    CStringChars(buf[..], p);
    ghost var s := CString(buf[..], p);
    n := 0;
    while buf[p + n] != NUL
      invariant n <= |s|
      decreases |s| - n
    {
      n := n + 1;
    }
  }

  /** strchr: the index of the first `c`, or -1. */
  method StrChr(buf: array<char>, p: nat, c: char) returns (at: int)
    requires Terminated(buf[..], p) && c != NUL
    ensures var s := CString(buf[..], p); at == if c in s then p + |Until(s, c)| else -1
  {
    CStringChars(buf[..], p);
    ghost var s := CString(buf[..], p);
    var i := p;
    while buf[i] != NUL && buf[i] != c
      invariant p <= i <= p + |s| && c !in s[..i - p]
      decreases p + |s| - i
    {
      assert s[..i + 1 - p] == s[..i - p] + [s[i - p]];
      i := i + 1;
    }
    if buf[i] == NUL {
      assert s[..i - p] == s;
      return -1;
    }
    at := i;
    assert s == s[..i - p] + [c] + s[i - p + 1..];
    UntilStops(s[..i - p], c, s[i - p + 1..]);
  }

  /** Shortens the string at `p` to its first `n` chars. */
  method CutAt(buf: array<char>, p: nat, n: nat)
    requires Terminated(buf[..], p) && n <= |CString(buf[..], p)|
    modifies buf
    ensures Terminated(buf[..], p) && CString(buf[..], p) == old(CString(buf[..], p))[..n]
    ensures forall i :: 0 <= i < buf.Length && i != p + n ==> buf[i] == old(buf[i])
    ensures buf[p + n] == NUL
  {
    CStringChars(buf[..], p);
    ghost var s := CString(buf[..], p);
    buf[p + n] := NUL;
    CStringIs(buf[..], p, n);
    assert buf[..][p..p + n] == s[..n];
  }

  /** A string is read from its own chars only. */
  lemma CStringFrame(a: seq<char>, b: seq<char>, p: nat)
    requires Terminated(a, p) && |a| == |b|
    requires forall i :: p <= i <= p + |CString(a, p)| ==> a[i] == b[i]
    ensures Terminated(b, p) && CString(b, p) == CString(a, p)
  {
    var n := |CString(a, p)|;
    CStringChars(a, p);
    CStringIs(b, p, n);
    assert a[p..p + n] == b[p..p + n];
  }

  /** The std::string made of a C string. */
  method ToString(buf: array<char>, p: nat) returns (s: string)
    requires Terminated(buf[..], p)
    ensures s == CString(buf[..], p)
  {
    CStringChars(buf[..], p);
    var n := StrLen(buf, p);
    s := buf[p..p + n];
    assert s == buf[..][p..p + n];
  }
}
