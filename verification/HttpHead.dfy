/** Reading a request head from the socket: `get_line` and `clear_head`. */
module HttpHead {
  import opened Wrappers
  import opened CStrings

  const SIZE: nat := 1024

  /** The receiving side of a connection: the bytes that are still to be read. */
  class Socket {
    var input: seq<char>

    constructor (bytes: seq<char>)
      ensures input == bytes
    {
      input := bytes;
    }

    /** recv of one byte: at the end of the stream it returns 0 and leaves `ch` alone. */
    method Recv(ch: char) returns (num: int, ch': char)
      modifies this
      ensures old(input) == [] ==> num == 0 && ch' == ch && input == []
      ensures old(input) != [] ==> num == 1 && ch' == old(input)[0] && input == old(input)[1..]
    {
      if input == [] {
        return 0, ch;
      }
      num, ch' := 1, input[0];
      input := input[1..];
    }
  }

  // ---------------------------------------------------------------------------
  // get_line
  // ---------------------------------------------------------------------------

  predicate EndsLine(c: char) {
    c == NUL || c == '\n' || c == '\r'
  }

  function LineEnd(s: seq<char>): (k: nat)
    ensures k <= |s|
    ensures forall i | 0 <= i < k :: !EndsLine(s[i])
    ensures k < |s| ==> EndsLine(s[k])
  {
    if s == [] || EndsLine(s[0]) then 0 else 1 + LineEnd(s[1..])
  }

  lemma {:induction false} LineEndIs(s: seq<char>, k: nat)
    requires k < |s| && EndsLine(s[k]) && forall i | 0 <= i < k :: !EndsLine(s[i])
    ensures LineEnd(s) == k
  {
    if k > 0 {
      LineEndIs(s[1..], k - 1);
    }
  }

  /** When `get_line` returns, and within its buffer: a line must end before the buffer is
      full, and may not be cut off by the end of the stream. */
  predicate LineFits(s: seq<char>, size: nat) {
    size == 1 || s == [] || (LineEnd(s) < |s| && LineEnd(s) + 1 < size)
  }

  /** The byte that `get_line` reads last: the one after the end of the line, if any. */
  function LastRead(s: seq<char>): char
    requires LineEnd(s) < |s|
  {
    var k := LineEnd(s);
    if k + 1 < |s| then s[k + 1] else s[k]
  }

  /** The line as returned.  The byte after the one that ended it is read too, and unless
      that last byte is a NUL, one LF stands for whatever ended the line. */
  function LineText(s: seq<char>, size: nat): (t: string)
    requires LineFits(s, size)
    ensures NUL !in t && (size > 0 ==> |t| < size)
  {
    if size == 1 || s == [] then ""
    else
      s[..LineEnd(s)] + if LastRead(s) == NUL then "" else "\n"
  }

  function LineRest(s: seq<char>, size: nat): (r: seq<char>)
    requires LineFits(s, size)
    ensures |r| <= |s|
    ensures LineText(s, size) != "" ==> |r| < |s|
  {
    if size == 1 || s == [] then s
    else if LineEnd(s) + 2 <= |s| then s[LineEnd(s) + 2..] else []
  }

  /** The loop of `get_line` between two rounds; `left` once it has broken out. */
  datatype LineState = LineState(i: nat, ch: char, input: seq<char>, left: bool)
  {
    predicate Running(size: nat) {
      !left && i + 1 < size && ch != '\n'
    }

    /** One byte off the stream; at its end `ch` stays. */
    function Received(): LineState {
      if input == [] then this else this.(ch := input[0], input := input[1..])
    }

    function Round(): LineState {
      var r := Received();
      if EndsLine(r.ch) then r.Received().(left := true)
      else if input == [] then r
      else r.(i := i + 1)
    }

    /** The index of the NUL that is written at the end. */
    function TerminatorAt(): nat {
      if ch == NUL then i else i + 1
    }
  }

  function Rounds(st: LineState, size: nat, n: nat): LineState
    decreases n
  {
    if n == 0 || !st.Running(size) then st else Rounds(st.Round(), size, n - 1)
  }

  function Start(s: seq<char>): LineState {
    LineState(0, NUL, s, false)
  }

  /** The loop passes through `st`. */
  ghost predicate Passes(s: seq<char>, size: nat, st: LineState) {
    exists n :: Rounds(Start(s), size, n) == st
  }

  /** The loop ends with these values. */
  ghost predicate Ends(s: seq<char>, size: nat, i: nat, ch: char, rest: seq<char>) {
    exists left :: var st := LineState(i, ch, rest, left); Passes(s, size, st) && !st.Running(size)
  }

  lemma {:induction false} RoundsStep(st: LineState, size: nat, n: nat)
    ensures Rounds(st, size, n + 1)
         == (if Rounds(st, size, n).Running(size) then Rounds(st, size, n).Round() else Rounds(st, size, n))
    decreases n
  {
    if n > 0 && st.Running(size) {
      RoundsStep(st.Round(), size, n - 1);
    }
  }

  /** One more round: the line ends, or a byte is stored. */
  lemma {:induction false} NextRound(s: seq<char>, size: nat, st: LineState)
    requires Passes(s, size, st) && st.Running(size)
    ensures var r := st.Received();
            if EndsLine(r.ch) then Ends(s, size, st.i, r.Received().ch, r.Received().input)
            else st.input != [] ==> Passes(s, size, LineState(st.i + 1, r.ch, r.input, false))
  {
    var n :| Rounds(Start(s), size, n) == st;
    RoundsStep(Start(s), size, n);
    assert Passes(s, size, st.Round());
  }

  lemma {:induction false} StoreNext(was: seq<char>, s: seq<char>, i: nat)
    requires i < |s| && i < |was|
    ensures Overlay(was, s[..i])[i := s[i]] == Overlay(was, s[..i + 1])
  {
    OverlayNext(was, s[..i], s[i]);
    assert s[..i] + [s[i]] == s[..i + 1];
  }

  /** What is left after `i` bytes of a line that fits, and what its first byte is. */
  lemma {:induction false} InsideLine(s: seq<char>, size: nat, i: nat)
    requires LineFits(s, size) && i <= LineEnd(s) && i + 1 < size
    ensures s[i..] == [] ==> s == [] && i == 0
    ensures s[i..] != [] ==> i < |s| && s[i..][0] == s[i] && s[i..][1..] == s[i + 1..]
    ensures i < |s| ==> (EndsLine(s[i]) <==> i == LineEnd(s))
    ensures s != [] ==> LineEnd(s) + 1 < size
    ensures i == LineEnd(s) && s != [] ==>
              && LastRead(s) == (if s[i + 1..] == [] then s[i] else s[i + 1..][0])
              && LineRest(s, size) == (if s[i + 1..] == [] then [] else s[i + 1..][1..])
  {}

  /** The loop of `get_line`: how many bytes were stored, and the last byte read. */
  method ReadUpToEnd(sock: Socket, buf: array<char>, size: nat) returns (i: nat, ch: char)
    requires 0 < size <= buf.Length && LineFits(sock.input, size)
    modifies sock, buf
    ensures sock.input == old(LineRest(sock.input, size))
    ensures if size == 1 || old(sock.input) == [] then i == 0 && ch == NUL
            else i == LineEnd(old(sock.input)) && ch == LastRead(old(sock.input))
    ensures i <= LineEnd(old(sock.input)) && Ends(old(sock.input), size, i, ch, sock.input)
    ensures buf[..] == Overlay(old(buf[..]), old(sock.input)[..i])
  {
    ghost var s, was := sock.input, buf[..];
    i, ch := 0, NUL;
    var num := -1;
    assert Rounds(Start(s), size, 0) == Start(s);
    while i < size - 1 && ch != '\n'
      invariant i <= LineEnd(s) && sock.input == s[i..]
      invariant ch != '\n' && (i > 0 ==> ch != NUL)
      invariant if size == 1 || s == [] then i == 0 && ch == NUL else i + 1 < size
      invariant buf[..] == Overlay(was, s[..i])
      invariant Passes(s, size, LineState(i, ch, sock.input, false))
      decreases |sock.input|
    {
      NextRound(s, size, LineState(i, ch, sock.input, false));
      InsideLine(s, size, i);
      num, ch := sock.Recv(ch);
      if ch == NUL || ch == '\n' || ch == '\r' {
        num, ch := sock.Recv(ch);
        break;
      }
      if num > 0 {
        StoreNext(was, s, i);
        buf[i] := ch;
        i := i + 1;
      }
    }
  }

  method GetLine(sock: Socket, buf: array<char>, size: nat) returns (i: nat)
    requires 0 < size <= buf.Length && LineFits(sock.input, size)
    modifies sock, buf
    ensures sock.input == old(LineRest(sock.input, size))
    ensures i == |old(LineText(sock.input, size))|
    ensures buf[..] == Overlay(old(buf[..]), old(LineText(sock.input, size)) + [NUL])
  {
    ghost var s, was := sock.input, buf[..];
    var ch;
    i, ch := ReadUpToEnd(sock, buf, size);
    ghost var line := s[..i];
    assert LineText(s, size) == if ch == NUL then line else line + "\n";
    OverlayNext(was, line, NUL);
    if ch == NUL {
      buf[i] := NUL;
    } else {
      OverlayNext(was, line, '\n');
      OverlayNext(was, line + "\n", NUL);
      buf[i] := '\n';
      i := i + 1;
      buf[i] := NUL;
    }
  }

  // ---------------------------------------------------------------------------
  // LineFits is exactly what `get_line` needs
  // ---------------------------------------------------------------------------

  /** After some number of rounds the loop is over and the terminator is within the buffer. */
  ghost predicate ReturnsWithinBuffer(s: seq<char>, size: nat) {
    exists n :: !Rounds(Start(s), size, n).Running(size) && Rounds(Start(s), size, n).TerminatorAt() < size
  }

  /** Before the end of the line, round `n` stores byte `n`. */
  lemma {:induction false} OrdinaryRounds(s: seq<char>, size: nat, n: nat)
    requires n <= LineEnd(s) && n < size
    ensures Rounds(Start(s), size, n) == LineState(n, if n == 0 then NUL else s[n - 1], s[n..], false)
    decreases n
  {
    if n > 0 {
      OrdinaryRounds(s, size, n - 1);
      RoundsStep(Start(s), size, n - 1);
      assert s[n - 1..][0] == s[n - 1] && s[n - 1..][1..] == s[n..];
    }
  }

  /** Once over, or once a round changes nothing, no further round matters. */
  lemma {:induction false} Settled(s: seq<char>, size: nat, m: nat, n: nat)
    requires var st := Rounds(Start(s), size, m); !st.Running(size) || st.Round() == st
    requires m <= n
    ensures Rounds(Start(s), size, n) == Rounds(Start(s), size, m)
    decreases n
  {
    if m < n {
      Settled(s, size, m, n - 1);
      RoundsStep(Start(s), size, n - 1);
    }
  }

  /** The loop is over after `m` rounds: whatever is true of its end is true of that state. */
  lemma {:induction false} OverAfter(s: seq<char>, size: nat, m: nat)
    requires !Rounds(Start(s), size, m).Running(size)
    ensures ReturnsWithinBuffer(s, size) <==> Rounds(Start(s), size, m).TerminatorAt() < size
  {
    if n: nat :| !Rounds(Start(s), size, n).Running(size) && Rounds(Start(s), size, n).TerminatorAt() < size {
      if n <= m {
        Settled(s, size, n, m);
      } else {
        Settled(s, size, m, n);
      }
    }
  }

  /** `get_line` returns, and stays within its buffer, if and only if the line fits. */
  lemma {:induction false} LineFitsIsExact(s: seq<char>, size: nat)
    requires size > 0
    ensures ReturnsWithinBuffer(s, size) <==> LineFits(s, size)
  {
    var k := LineEnd(s);
    if size == 1 {
      OverAfter(s, size, 0);
    } else if k + 1 >= size {
      OrdinaryRounds(s, size, size - 1);
      assert !EndsLine(s[size - 2]);
      OverAfter(s, size, size - 1);
    } else {
      OrdinaryRounds(s, size, k);
      RoundsStep(Start(s), size, k);
      if k < |s| || s == [] {
        OverAfter(s, size, k + 1);
      } else {
        NeverReturns(s, size);
      }
    }
  }

  lemma {:induction false} RoundsOfLine(s: seq<char>, size: nat) returns (m: nat)
    requires size > 0 && LineFits(s, size)
    ensures var st := Rounds(Start(s), size, m);
            !st.Running(size) && st.input == LineRest(s, size) && st.TerminatorAt() == |LineText(s, size)|
  {
    if size == 1 {
      m := 0;
    } else {
      var k := LineEnd(s);
      m := k + 1;
      OrdinaryRounds(s, size, k);
      RoundsStep(Start(s), size, k);
      InsideLine(s, size, k);
      assert Rounds(Start(s), size, k).Received().input == if s == [] then [] else s[k + 1..];
    }
  }

  /** When the line fits, whatever state the loop ends in holds the line as returned and the
      stream as left. */
  lemma {:induction false} RoundsReadTheLine(s: seq<char>, size: nat, n: nat)
    requires size > 0 && LineFits(s, size)
    requires !Rounds(Start(s), size, n).Running(size)
    ensures var st := Rounds(Start(s), size, n);
            && st.input == LineRest(s, size)
            && st.TerminatorAt() == |LineText(s, size)|
  {
    var m := RoundsOfLine(s, size);
    if n <= m {
      Settled(s, size, n, m);
    } else {
      Settled(s, size, m, n);
    }
  }

  /** A line cut off by the end of the stream: `recv` keeps returning 0 and `ch` stays. */
  lemma {:induction false} NeverReturns(s: seq<char>, size: nat)
    requires s != [] && LineEnd(s) == |s| && |s| + 1 < size
    ensures !ReturnsWithinBuffer(s, size)
  {
    var m := |s|;
    OrdinaryRounds(s, size, m);
    assert !EndsLine(s[m - 1]) && s[m..] == [];
    forall n: nat
      ensures Rounds(Start(s), size, n).Running(size)
    {
      if n <= m {
        OrdinaryRounds(s, size, n);
        assert n > 0 ==> !EndsLine(s[n - 1]);
      } else {
        Settled(s, size, m, n);
      }
    }
  }

  /** "GET" and nothing more: the loop goes on for ever.  Two characters and an LF: no room for
      the terminator in three. */
  lemma {:induction false} LineExamples()
    ensures !ReturnsWithinBuffer("GET", SIZE)
    ensures !ReturnsWithinBuffer("ab\n", 3)
  {
    NeverReturns("GET", SIZE);
    LineEndIs("ab\n", 2);
    LineFitsIsExact("ab\n", 3);
  }

  /** Whatever ends a line, the byte after it is read as well: the line comes back with one LF,
      or with none when the last byte that was read is a NUL. */
  lemma {:induction false} LineWithItsEnd(line: string, end: char, rest: seq<char>, size: nat)
    requires |line| + 2 <= size && (end == '\n' || end == '\r' || end == '\0')
    requires '\n' !in line && '\r' !in line && '\0' !in line
    ensures var s := line + [end] + rest;
            var last := if rest == [] then end else rest[0];
            && LineFits(s, size)
            && LineText(s, size) == (if last == '\0' then line else line + "\n")
            && LineRest(s, size) == if rest == [] then [] else rest[1..]
  {
    var s := line + [end] + rest;
    var k := |line|;
    assert forall i | 0 <= i < k :: s[i] == line[i] && line[i] in line;
    LineEndIs(s, k);
    assert s[..k] == line && s[k] == end && s[k + 1..] == rest;
    if rest != [] {
      assert s[k + 1] == rest[0] && s[k + 2..] == rest[1..];
    }
  }

  /** A line ended by CRLF is returned with one LF in place of the CRLF, which is consumed. */
  lemma {:induction false} CrlfLine(line: string, rest: seq<char>, size: nat)
    requires |line| + 2 <= size && forall i | 0 <= i < |line| :: !EndsLine(line[i])
    ensures var s := line + "\r\n" + rest;
            && LineFits(s, size)
            && LineText(s, size) == line + "\n"
            && LineRest(s, size) == rest
  {
    var s := line + "\r\n" + rest;
    var k := |line|;
    assert forall i | 0 <= i < k :: s[i] == line[i];
    assert s[k] == '\r' && s[k + 1] == '\n';
    LineEndIs(s, k);
  }

  // ---------------------------------------------------------------------------
  // clear_head
  // ---------------------------------------------------------------------------

  /** The stream after the head: past the first line that is only an LF, or the first one
      that comes back empty.  None when a line does not fit. */
  function AfterHead(s: seq<char>): Option<seq<char>>
    decreases |s|
  {
    if !LineFits(s, SIZE) then None
    else
      var t := LineText(s, SIZE);
      if |t| > 0 && t != "\n" then AfterHead(LineRest(s, SIZE)) else Some(LineRest(s, SIZE))
  }

  lemma {:induction false} OnlyLineFeed(t: string)
    ensures EqualIgnoringCase(t, "\n") <==> t == "\n"
  {
    if |t| == 1 && t[0] != '\n' {
      assert Lower(t[0]) != '\n';
    }
  }

  method ClearHead(sock: Socket)
    requires AfterHead(sock.input).Some?
    modifies sock
    ensures AfterHead(old(sock.input)) == Some(sock.input)
  {
    var buf := NewBuffer(SIZE);
    var more := true;
    while more
      invariant fresh(buf) && buf.Length == SIZE
      invariant more ==> AfterHead(sock.input) == AfterHead(old(sock.input))
      invariant !more ==> AfterHead(old(sock.input)) == Some(sock.input)
      decreases more, |sock.input|
    {
      ghost var t := LineText(sock.input, SIZE);
      var num := GetLine(sock, buf, SIZE);
      LineInBuffer(buf[..], t);
      OnlyLineFeed(t);
      more := num > 0 && !EqualIgnoringCase(CStr(buf[..], 0), "\n");
    }
  }

  /** The head loop of `exec_get_file`, which tests before it reads. */
  method SkipHeadOfFileRequest(sock: Socket)
    requires AfterHead(sock.input).Some?
    modifies sock
    ensures AfterHead(old(sock.input)) == Some(sock.input)
  {
    var buf := NewBuffer(SIZE);
    var num := 1;
    CStrOfPrinted(buf[..], 0, "");
    while num > 0 && CStr(buf[..], 0) != "\n"
      invariant fresh(buf) && buf.Length == SIZE
      invariant if num > 0 && CStr(buf[..], 0) != "\n" then AfterHead(sock.input) == AfterHead(old(sock.input))
                else AfterHead(old(sock.input)) == Some(sock.input)
      decreases num > 0 && CStr(buf[..], 0) != "\n", |sock.input|
    {
      ghost var t := LineText(sock.input, SIZE);
      num := GetLine(sock, buf, SIZE);
      LineInBuffer(buf[..], t);
    }
  }

  lemma {:induction false} LineInBuffer(b: seq<char>, t: string)
    requires NUL !in t && |t| < |b| && b[..|t| + 1] == t + [NUL]
    ensures CStr(b, 0) == t
  {
    assert b[|t|] == b[..|t| + 1][|t|];
    assert b[0..|t|] == b[..|t| + 1][..|t|];
    CStrOfPrinted(b, 0, t);
  }

  // ---------------------------------------------------------------------------
  // Heads as RFC 7230, section 3, prints them
  // ---------------------------------------------------------------------------

  predicate IsHeadLine(line: string) {
    line != "" && |line| + 2 <= SIZE && forall i | 0 <= i < |line| :: !EndsLine(line[i])
  }

  predicate IsHead(lines: seq<string>) {
    forall i | 0 <= i < |lines| :: IsHeadLine(lines[i])
  }

  function PrintHead(lines: seq<string>): string {
    if lines == [] then "\r\n" else lines[0] + "\r\n" + PrintHead(lines[1..])
  }

  /** Whatever the lines and whatever follows, `clear_head` stops at the first body byte. */
  lemma {:induction false} HeadIsConsumed(lines: seq<string>, body: seq<char>)
    requires IsHead(lines)
    ensures AfterHead(PrintHead(lines) + body) == Some(body)
  {
    if lines == [] {
      assert PrintHead(lines) + body == "" + "\r\n" + body;
      CrlfLine("", body, SIZE);
    } else {
      var rest := PrintHead(lines[1..]) + body;
      assert PrintHead(lines) + body == lines[0] + "\r\n" + rest;
      assert IsHeadLine(lines[0]);
      CrlfLine(lines[0], rest, SIZE);
      HeadIsConsumed(lines[1..], body);
    }
  }

  function PrintLines(lines: seq<string>): string {
    if lines == [] then "" else lines[0] + "\r\n" + PrintLines(lines[1..])
  }

  /** A stream that ends after whole lines, with no blank one, is read to its end. */
  lemma {:induction false} HeadMayBreakOff(lines: seq<string>)
    requires IsHead(lines)
    ensures AfterHead(PrintLines(lines)) == Some([])
  {
    if lines != [] {
      assert IsHeadLine(lines[0]);
      CrlfLine(lines[0], PrintLines(lines[1..]), SIZE);
      HeadMayBreakOff(lines[1..]);
    }
  }
}
