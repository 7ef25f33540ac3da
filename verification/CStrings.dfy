/** The C library's view of character data: strings that end at a NUL. */
module CStrings {

  const NUL: char := '\0'

  /** The first index from `from` on that holds `c`, or the length when there is none. */
  function FirstOf(s: string, c: char, from: nat): (k: nat)
    requires from <= |s|
    ensures from <= k <= |s|
    ensures forall i | from <= i < k :: s[i] != c
    ensures k < |s| ==> s[k] == c
    decreases |s| - from
  {
    if from == |s| || s[from] == c then from else FirstOf(s, c, from + 1)
  }

  lemma {:induction false} FirstOfIs(s: string, c: char, from: nat, k: nat)
    requires from <= k <= |s|
    requires forall i | from <= i < k :: s[i] != c
    requires k < |s| ==> s[k] == c
    ensures FirstOf(s, c, from) == k
    decreases k - from
  {
    if from < k {
      FirstOfIs(s, c, from + 1, k);
    }
  }

  /** The string a pointer to `b[at]` denotes. */
  function CStr(b: seq<char>, at: nat): (t: string)
    requires at <= |b|
    ensures NUL !in t
  {
    b[at..FirstOf(b, NUL, at)]
  }

  /** A NUL ends the string at `b[at]` before the buffer ends. */
  predicate Terminated(b: seq<char>, at: nat) {
    at <= |b| && FirstOf(b, NUL, at) < |b|
  }

  lemma {:induction false} CStrOfPrinted(b: seq<char>, at: nat, t: string)
    requires NUL !in t && at + |t| < |b| && b[at..at + |t|] == t && b[at + |t|] == NUL
    ensures Terminated(b, at) && CStr(b, at) == t
  {
    assert forall i | at <= i < at + |t| :: b[i] == t[i - at];
    FirstOfIs(b, NUL, at, at + |t|);
  }

  /** `b` with the characters of `t` written over its beginning. */
  function Overlay(b: seq<char>, t: string): (r: seq<char>)
    requires |t| <= |b|
    ensures |r| == |b|
  {
    t + b[|t|..]
  }

  lemma {:induction false} OverlayNext(b: seq<char>, t: string, c: char)
    requires |t| < |b|
    ensures Overlay(b, t)[|t| := c] == Overlay(b, t + [c])
  {}

  /** strcpy and sprintf: the characters and the NUL, in bounds only if both fit. */
  method CopyString(dst: array<char>, t: string)
    requires |t| < dst.Length
    modifies dst
    ensures dst[..] == Overlay(old(dst[..]), t + [NUL])
  {
    var i := 0;
    while i < |t|
      invariant 0 <= i <= |t|
      invariant forall k | 0 <= k < i :: dst[k] == t[k]
      invariant forall k | i <= k < dst.Length :: dst[k] == old(dst[k])
    {
      dst[i] := t[i];
      i := i + 1;
    }
    dst[i] := NUL;
  }

  /** memset of the first `n` characters with NUL. */
  method Clear(dst: array<char>, n: nat)
    requires n <= dst.Length
    modifies dst
    ensures dst[..] == Overlay(old(dst[..]), Zeros(n))
  {
    var i := 0;
    while i < n
      invariant 0 <= i <= n
      invariant forall k | 0 <= k < i :: dst[k] == NUL
      invariant forall k | i <= k < dst.Length :: dst[k] == old(dst[k])
    {
      dst[i] := NUL;
      i := i + 1;
    }
  }

  /** A local buffer, cleared by memset. */
  method NewBuffer(n: nat) returns (buf: array<char>)
    ensures fresh(buf) && buf.Length == n && buf[..] == Zeros(n)
  {
    buf := new char[n];
    Clear(buf, n);
  }

  function Zeros(n: nat): (z: seq<char>)
    ensures |z| == n && forall i | 0 <= i < n :: z[i] == NUL
  {
    seq(n, _ => NUL)
  }

  lemma {:induction false} CStrOfOverlay(b: seq<char>, t: string)
    requires NUL !in t && |t| < |b|
    requires b == Overlay(Zeros(|b|), t) || exists a: seq<char> :: |a| == |b| && b == Overlay(a, t + [NUL])
    ensures Terminated(b, 0) && CStr(b, 0) == t
  {
    CStrOfPrinted(b, 0, t);
  }

  function Lower(c: char): char {
    if 'A' <= c <= 'Z' then (c as int + 32) as char else c
  }

  /** strcasecmp(a, b) == 0, for the letters A to Z. */
  predicate EqualIgnoringCase(a: string, b: string) {
    |a| == |b| && forall i | 0 <= i < |a| :: Lower(a[i]) == Lower(b[i])
  }
}
