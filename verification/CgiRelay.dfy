/** The head and body loops of `exec_cgi`. */
module CgiRelay {
  import opened Wrappers
  import opened CStrings
  import opened Decimal
  import opened HttpHead

  const PREFIX: string := "Content-Length:"

  /** strncmp(buf, "Content-Length:", 15) == 0 */
  predicate IsLengthLine(t: string) {
    PREFIX <= t
  }

  /** atoi(&buf[16]): the character after the colon is skipped, whatever it is. */
  function LengthIn(t: string): int {
    Atoi(if |t| >= 16 then t[16..] else "")
  }

  function NewLength(t: string, n: int): int {
    if IsLengthLine(t) then LengthIn(t) else n
  }

  /** The length and the rest of the stream after a head other than GET's; the last length
      line decides.  None when a line does not fit or a length is no `int`. */
  function ReadHead(s: seq<char>, n: int): (r: Option<(int, seq<char>)>)
    ensures r.Some? ==> FitsInt(r.value.0)
    decreases |s|
  {
    if !LineFits(s, SIZE) then None
    else
      var t, r := LineText(s, SIZE), LineRest(s, SIZE);
      if !FitsInt(NewLength(t, n)) then None
      else if |t| > 0 && t != "\n" then ReadHead(r, NewLength(t, n))
      else Some((NewLength(t, n), r))
  }

  method ReadLengthHead(sock: Socket) returns (contentLength: int)
    requires ReadHead(sock.input, 0).Some?
    modifies sock
    ensures ReadHead(old(sock.input), 0) == Some((contentLength, sock.input))
  {
    var buf := new char[SIZE];
    contentLength := 0;
    var more := true;
    while more
      invariant fresh(buf) && buf.Length == SIZE
      invariant more ==> ReadHead(sock.input, contentLength) == ReadHead(old(sock.input), 0)
      invariant !more ==> ReadHead(old(sock.input), 0) == Some((contentLength, sock.input))
      decreases more, |sock.input|
    {
      Clear(buf, buf.Length);
      ghost var t := LineText(sock.input, SIZE);
      var numchar := GetLine(sock, buf, SIZE);
      LineInBuffer(buf[..], t);
      ValueInBuffer(buf[..], t);
      if PREFIX <= CStr(buf[..], 0) {
        contentLength := Atoi(CStr(buf[..], 16));
      }
      more := numchar > 0 && CStr(buf[..], 0) != "\n";
    }
  }

  lemma {:induction false} ValueInBuffer(b: seq<char>, t: string)
    requires NUL !in t && |b| == SIZE && |t| < SIZE && b == Overlay(Zeros(SIZE), t + [NUL])
    ensures CStr(b, 16) == if |t| >= 16 then t[16..] else ""
  {
    if |t| >= 16 {
      CStrOfPrinted(b, 16, t[16..]);
    } else {
      assert b[16] == NUL;
      CStrOfPrinted(b, 16, "");
    }
  }

  // ---------------------------------------------------------------------------
  // The body relay
  // ---------------------------------------------------------------------------

  /** The bytes written to the pipe: at the end of the stream the last one is repeated. */
  function Relayed(s: seq<char>, n: nat, ch: char): (r: seq<char>)
    ensures |r| == n
    decreases n
  {
    if n == 0 then []
    else if s == [] then [ch] + Relayed(s, n - 1, ch)
    else [s[0]] + Relayed(s[1..], n - 1, s[0])
  }

  function Repeated(c: char, n: nat): (r: seq<char>)
    ensures |r| == n && forall i | 0 <= i < n :: r[i] == c
  {
    seq(n, _ => c)
  }

  /** With enough bytes the relay passes on the first `n`; with too few, all of them and then
      copies of the last one, or of whatever `ch` held when there was none. */
  lemma {:induction false} RelayIsExact(s: seq<char>, n: nat, ch: char)
    ensures n <= |s| ==> Relayed(s, n, ch) == s[..n]
    ensures n > |s| ==> Relayed(s, n, ch) == s + Repeated(if s == [] then ch else s[|s| - 1], n - |s|)
    decreases n
  {
    if n > 0 && s == [] {
      RelayIsExact(s, n - 1, ch);
    } else if n > 0 {
      RelayIsExact(s[1..], n - 1, s[0]);
    }
  }

  function AfterRelay(s: seq<char>, n: nat): seq<char> {
    if n <= |s| then s[n..] else []
  }

  /** `ch` is what the uninitialised relay variable happens to hold. */
  method RelayBody(sock: Socket, contentLength: int, ch: char) returns (pipe: seq<char>)
    modifies sock
    ensures var n := if contentLength < 0 then 0 else contentLength;
            && pipe == Relayed(old(sock.input), n, ch)
            && sock.input == AfterRelay(old(sock.input), n)
  {
    pipe := [];
    var c := ch;
    ghost var s := sock.input;
    ghost var n := if contentLength < 0 then 0 else contentLength;
    var i := 0;
    while i < contentLength
      invariant 0 <= i <= n
      invariant sock.input == AfterRelay(s, i)
      invariant pipe + Relayed(sock.input, n - i, c) == Relayed(s, n, ch)
    {
      ghost var before, was, prev := pipe, sock.input, c;
      var _, c' := sock.Recv(c);
      c := c';
      pipe := pipe + [c];
      assert Relayed(was, n - i, prev) == [c] + Relayed(sock.input, n - i - 1, c);
      assert before + ([c] + Relayed(sock.input, n - i - 1, c)) == pipe + Relayed(sock.input, n - i - 1, c);
      i := i + 1;
    }
  }

  // ---------------------------------------------------------------------------
  // The environment of the CGI program
  // ---------------------------------------------------------------------------

  const METHOD_SIZE := 255
  const QUERY_SIZE := 512

  /** The strings given to putenv. */
  function Environment(httpMethod: string, query: string, contentLength: int): seq<string> {
    ["REQUEST_METHOD:" + httpMethod,
     if httpMethod == "GET" then "QUERY_STRING:" + query else "CONTENT-LENGTH:" + Print(contentLength)]
  }

  /** The method, then the query for GET and otherwise a length that reads back. */
  lemma {:induction false} EnvironmentIsReadBack(httpMethod: string, query: string, n: int)
    ensures var env := Environment(httpMethod, query, n);
            && |env| == 2 && env[0] == "REQUEST_METHOD:" + httpMethod
            && if httpMethod == "GET" then env[1] == "QUERY_STRING:" + query
               else "CONTENT-LENGTH:" <= env[1] && Atoi(env[1][15..]) == n
  {
    var text := "CONTENT-LENGTH:" + Print(n);
    assert text[15..] == "" + Print(n) + "";
    AtoiOfPrint("", n, "");
  }

  /** They and their NULs fit the buffers of the child process; a length always does. */
  predicate EnvironmentFits(httpMethod: string, query: string) {
    && |httpMethod| + 15 < METHOD_SIZE
    && (httpMethod == "GET" ==> |query| + 13 < QUERY_SIZE)
  }

  method ComposeEnvironment(httpMethod: string, query: string, contentLength: int) returns (env: seq<string>)
    requires NUL !in httpMethod && NUL !in query && FitsInt(contentLength)
    requires EnvironmentFits(httpMethod, query)
    ensures env == Environment(httpMethod, query, contentLength)
    ensures |env| == 2 && env[0] == "REQUEST_METHOD:" + httpMethod
    ensures httpMethod == "GET" ==> env[1] == "QUERY_STRING:" + query
    ensures httpMethod != "GET" ==> "CONTENT-LENGTH:" <= env[1] && Atoi(env[1][15..]) == contentLength
  {
    var queryEnv := NewBuffer(QUERY_SIZE);
    var methodEnv := NewBuffer(METHOD_SIZE);
    var contentLenEnv := NewBuffer(METHOD_SIZE);
    var first := PutEnv(methodEnv, "REQUEST_METHOD:" + httpMethod);
    var second;
    if httpMethod == "GET" {
      second := PutEnv(queryEnv, "QUERY_STRING:" + query);
    } else {
      PrintedIntIsShort(contentLength);
      PrintedChars(contentLength);
      second := PutEnv(contentLenEnv, "CONTENT-LENGTH:" + Print(contentLength));
    }
    env := [first, second];
    EnvironmentIsReadBack(httpMethod, query, contentLength);
  }

  method PutEnv(buf: array<char>, text: string) returns (env: string)
    requires NUL !in text && |text| < buf.Length
    modifies buf
    ensures env == text
  {
    CopyString(buf, text);
    CStrOfOverlay(buf[..], text);
    env := CStr(buf[..], 0);
  }

  // ---------------------------------------------------------------------------
  // exec_cgi
  // ---------------------------------------------------------------------------

  datatype CgiResult = Refused | Started(program: string, env: seq<string>, pipe: seq<char>)

  /** What `exec_cgi` does with the request stream: the result and what is left unread.  None
      when the code leaves its buffers or number types. */
  function CgiOutcome(s: seq<char>, path: string, httpMethod: string, query: string, ch: char)
    : Option<(CgiResult, seq<char>)>
  {
    if httpMethod == "GET" then
      match AfterHead(s)
      case None => None
      case Some(r) =>
        if EnvironmentFits(httpMethod, query) then Some((Started(path, Environment(httpMethod, query, 0), []), r))
        else None
    else
      match ReadHead(s, 0)
      case None => None
      case Some((n, r)) =>
        if n == -1 then Some((Refused, r))
        else if !EnvironmentFits(httpMethod, query) then None
        else
          var relay := if EqualIgnoringCase(httpMethod, "POST") && n > 0 then n else 0;
          Some((Started(path, Environment(httpMethod, query, n), Relayed(r, relay, ch)), AfterRelay(r, relay)))
  }

  /** A GET whose query has 499 characters or more, which the query buffer still holds,
      overflows the environment buffer of the child. */
  lemma {:induction false} LongestQuery(s: seq<char>, path: string, query: string, ch: char)
    requires AfterHead(s).Some?
    ensures CgiOutcome(s, path, "GET", query, ch).Some? <==> |query| < 499
  {}

  /** `path` is the program that the child process becomes. */
  method ExecCgi(sock: Socket, path: string, httpMethod: string, query: string, ch: char) returns (result: CgiResult)
    requires NUL !in httpMethod && NUL !in query
    requires CgiOutcome(sock.input, path, httpMethod, query, ch).Some?
    modifies sock
    ensures CgiOutcome(old(sock.input), path, httpMethod, query, ch) == Some((result, sock.input))
  {
    var contentLength := 0;
    if httpMethod == "GET" {
      ClearHead(sock);
    } else {
      contentLength := ReadLengthHead(sock);
      if contentLength == -1 {
        return Refused;
      }
    }
    var env := ComposeEnvironment(httpMethod, query, contentLength);
    var pipe := [];
    if EqualIgnoringCase(httpMethod, "POST") {
      pipe := RelayBody(sock, contentLength, ch);
    }
    result := Started(path, env, pipe);
  }

  // ---------------------------------------------------------------------------
  // Declared lengths
  // ---------------------------------------------------------------------------

  /** The length that the lines of a head declare. */
  function DeclaredLength(lines: seq<string>, n: int): int {
    if lines == [] then n else DeclaredLength(lines[1..], NewLength(lines[0] + "\n", n))
  }

  predicate LengthsFit(lines: seq<string>) {
    forall i | 0 <= i < |lines| && "Content-Length:" <= lines[i] :: FitsInt(LengthIn(lines[i] + "\n"))
  }

  lemma {:induction false} StartsTheSame(line: string)
    ensures IsLengthLine(line + "\n") <==> "Content-Length:" <= line
  {
    assert PREFIX[14] == ':' && (line + "\n")[|line|] == '\n';
    if |line| >= 15 {
      assert (line + "\n")[..15] == line[..15];
    }
  }

  lemma {:induction false} ReadHeadOfPrinted(lines: seq<string>, body: seq<char>, n: int)
    requires IsHead(lines) && LengthsFit(lines) && FitsInt(n)
    ensures ReadHead(PrintHead(lines) + body, n) == Some((DeclaredLength(lines, n), body))
    decreases lines
  {
    if lines == [] {
      assert PrintHead(lines) + body == "" + "\r\n" + body;
      CrlfLine("", body, SIZE);
    } else {
      var rest := PrintHead(lines[1..]) + body;
      var t := lines[0] + "\n";
      assert PrintHead(lines) + body == lines[0] + "\r\n" + rest;
      assert IsHeadLine(lines[0]);
      StartsTheSame(lines[0]);
      CrlfLine(lines[0], rest, SIZE);
      ReadHeadOfPrinted(lines[1..], body, NewLength(t, n));
    }
  }

  lemma {:induction false} DeclaredOnce(lines: seq<string>, k: nat, n: int)
    requires k < |lines| && "Content-Length:" <= lines[k]
    requires forall i | k < i < |lines| :: !("Content-Length:" <= lines[i])
    ensures DeclaredLength(lines, n) == LengthIn(lines[k] + "\n")
    decreases lines
  {
    if k > 0 {
      DeclaredOnce(lines[1..], k - 1, NewLength(lines[0] + "\n", n));
    } else {
      StartsTheSame(lines[0]);
      NothingDeclared(lines[1..], LengthIn(lines[0] + "\n"));
    }
  }

  lemma {:induction false} NothingDeclared(lines: seq<string>, n: int)
    requires forall i | 0 <= i < |lines| :: !("Content-Length:" <= lines[i])
    ensures DeclaredLength(lines, n) == n
    decreases lines
  {
    if lines != [] {
      StartsTheSame(lines[0]);
      NothingDeclared(lines[1..], n);
    }
  }

  /** A field line as RFC 7230, section 3.2, allows it: the name in any case, and white space
      around the value or none. */
  function FieldLine(name: string, ows: string, digits: string, tail: string): string {
    name + ":" + ows + digits + tail
  }

  const NAME: string := "Content-Length"

  /** The number after the prefix is read exactly when white space comes first, which the code
      skips unseen, or when the digit that it skips instead is a zero. */
  lemma {:induction false} LengthIsRead(ows: string, digits: string, tail: string)
    requires AllBlank(ows) && AllDigits(digits) && digits != "" && AllBlank(tail)
    ensures LengthIn(PREFIX + ows + digits + tail) == ReadDigits(digits, 0) <==> ows != "" || digits[0] == '0'
  {
    var t := PREFIX + ows + digits + tail;
    if ows != "" {
      assert t[16..] == ows[1..] + digits + tail;
      AtoiOfNumber(ows[1..], digits, tail);
    } else {
      var rest := digits[1..];
      assert t[16..] == rest + tail;
      DroppedDigit(digits);
      if rest == "" {
        assert rest + tail == tail;
        AtoiOfBlanks(tail);
      } else {
        assert "" + rest + tail == rest + tail;
        AtoiOfNumber("", rest, tail);
      }
    }
  }

  /** Of the spellings of the name only one is recognised. */
  lemma {:induction false} OneSpellingCounts(name: string, rest: string)
    requires EqualIgnoringCase(name, NAME)
    ensures IsLengthLine(name + ":" + rest) <==> name == NAME
  {
    var t := name + ":" + rest;
    assert t[..14] == name && PREFIX[..14] == NAME;
    assert PREFIX == NAME + ":";
    if name != NAME {
      assert t[..15][..14] == name;
    }
  }

  /** No other field changes the length, nor does a line that is no field. */
  lemma {:induction false} OtherFieldsAreIgnored(name: string, rest: string, line: string, n: int)
    requires ':' !in name && name != "Content-Length" && ':' !in line
    ensures NewLength(name + ":" + rest, n) == n && NewLength(line, n) == n
  {
    var t := name + ":" + rest;
    assert PREFIX[14] == ':' && PREFIX[..14] == "Content-Length";
    assert |line| > 14 ==> line[14] in line;
    assert t[|name|] == ':';
    if |name| < 14 {
      assert PREFIX[|name|] == PREFIX[..14][|name|] != ':';
    } else if |name| == 14 {
      assert t[..14] == name;
    } else {
      assert t[14] == name[14] && name[14] in name;
    }
  }

  /** The case of the letters A to Z is all that the comparison ignores. */
  lemma {:induction false} CaseExamples()
    ensures EqualIgnoringCase("content-length", "Content-Length")
    ensures EqualIgnoringCase("post", "POST") && !EqualIgnoringCase("post", "put")
    ensures !EqualIgnoringCase("[", "{")
  {
    assert Lower("["[0]) == '[' && Lower("{"[0]) == '{';
  }

  /** What a length field does, over every spelling, spacing and digit string: the new length
      is the declared one if and only if the name is spelled as the code has it and the number
      is read whole, or the field is overlooked and the old length happened to be the same. */
  lemma {:induction false} FieldIsHonoured(name: string, ows: string, digits: string, tail: string, n: int)
    requires EqualIgnoringCase(name, NAME)
    requires AllBlank(ows) && AllDigits(digits) && digits != "" && AllBlank(tail)
    ensures NewLength(FieldLine(name, ows, digits, tail), n) == ReadDigits(digits, 0) <==>
              if name == NAME then ows != "" || digits[0] == '0' else n == ReadDigits(digits, 0)
  {
    var t := FieldLine(name, ows, digits, tail);
    assert t == name + ":" + (ows + digits + tail);
    OneSpellingCounts(name, ows + digits + tail);
    if name == NAME {
      assert t == PREFIX + ows + digits + tail;
      LengthIsRead(ows, digits, tail);
    }
  }

  /** Three fields that declare 42: one read as 2, one read whole, one overlooked. */
  lemma {:induction false} LengthExamples()
    ensures LengthIn("Content-Length:42\n") == 2
    ensures LengthIn("Content-Length:042\n") == 42
    ensures NewLength("content-length: 42\n", 0) == 0
  {
    assert "Content-Length:42\n"[16..] == "" + Print(2) + "\n";
    AtoiOfPrint("", 2, "\n");
    assert PrintNat(42) == PrintNat(4) + [Digit(2)] == "42";
    assert "Content-Length:042\n"[16..] == "" + Print(42) + "\n";
    AtoiOfPrint("", 42, "\n");
    assert "content-length: 42\n"[0] != PREFIX[0];
  }

  /** A number of either sign is read after white space. */
  lemma {:induction false} SignedLengthIsRead(ows: string, n: int, tail: string)
    requires AllBlank(ows) && ows != "" && AllBlank(tail)
    ensures LengthIn("Content-Length:" + ows + Print(n) + tail) == n
  {
    var t := "Content-Length:" + ows + Print(n) + tail;
    assert t[16..] == ows[1..] + Print(n) + tail;
    AtoiOfPrint(ows[1..], n, tail);
  }

  /** What a body gives for a declared length: as much of it as was declared, and at its end
      copies of the last byte that was read. */
  function Piped(body: seq<char>, n: int, ch: char): seq<char> {
    if n <= 0 then []
    else if n <= |body| then body[..n]
    else body + Repeated(if body == [] then ch else body[|body| - 1], n - |body|)
  }

  function Unread(body: seq<char>, n: int): seq<char> {
    if n <= 0 then body else if n <= |body| then body[n..] else []
  }

  /** A POST, over every head and body: a declared length of -1 is refused; otherwise the program
      is told the length, and its pipe gets that much of the body. */
  lemma {:induction false} PostIsRelayed(lines: seq<string>, body: seq<char>, path: string, query: string, ch: char)
    requires IsHead(lines) && LengthsFit(lines)
    ensures var n := DeclaredLength(lines, 0);
            CgiOutcome(PrintHead(lines) + body, path, "POST", query, ch) == Some(PostResult(path, n, body, ch))
  {
    ReadHeadOfPrinted(lines, body, 0);
    PostOutcome(PrintHead(lines) + body, DeclaredLength(lines, 0), body, path, query, ch);
  }

  function PostResult(path: string, n: int, body: seq<char>, ch: char): (CgiResult, seq<char>) {
    if n == -1 then (Refused, body)
    else (Started(path, ["REQUEST_METHOD:POST", "CONTENT-LENGTH:" + Print(n)], Piped(body, n, ch)), Unread(body, n))
  }

  lemma {:induction false} PostOutcome(s: seq<char>, n: int, body: seq<char>, path: string, query: string, ch: char)
    requires ReadHead(s, 0) == Some((n, body))
    ensures CgiOutcome(s, path, "POST", query, ch) == Some(PostResult(path, n, body, ch))
  {
    var m := if n > 0 then n else 0;
    RelayIsExact(body, m, ch);
    assert "POST"[0] != "GET"[0];
    assert EqualIgnoringCase("POST", "POST");
    assert Relayed(body, m, ch) == Piped(body, n, ch) && AfterRelay(body, m) == Unread(body, n);
    assert "REQUEST_METHOD:" + "POST" == "REQUEST_METHOD:POST";
    assert Environment("POST", query, n) == ["REQUEST_METHOD:POST", "CONTENT-LENGTH:" + Print(n)];
  }

  /** For a POST whose head declares the length last on a line that is read whole, the program is
      told that length, the CGI pipe gets as many bytes, and the rest of the body stays unread. */
  lemma {:induction false} PostBodyIsRelayed(lines: seq<string>, k: nat, ows: string, digits: string,
                                             body: seq<char>, path: string, query: string, ch: char)
    requires IsHead(lines) && LengthsFit(lines)
    requires k < |lines| && lines[k] == "Content-Length:" + ows + digits
    requires AllBlank(ows) && AllDigits(digits) && digits != "" && (ows != "" || digits[0] == '0')
    requires forall i | k < i < |lines| :: !("Content-Length:" <= lines[i])
    ensures var n := ReadDigits(digits, 0);
            && CgiOutcome(PrintHead(lines) + body, path, "POST", query, ch) == Some(PostResult(path, n, body, ch))
            && (n <= |body| ==> Piped(body, n, ch) == body[..n] && Unread(body, n) == body[n..])
  {
    LengthIsRead(ows, digits, "\n");
    DeclaredOnce(lines, k, 0);
    PostIsRelayed(lines, body, path, query, ch);
  }

  /** A POST whose head declares no length starts the program with nothing on its pipe. */
  lemma {:induction false} PostWithoutLength(lines: seq<string>, body: seq<char>, path: string, query: string, ch: char)
    requires IsHead(lines) && forall i | 0 <= i < |lines| :: !("Content-Length:" <= lines[i])
    ensures CgiOutcome(PrintHead(lines) + body, path, "POST", query, ch)
         == Some((Started(path, ["REQUEST_METHOD:POST", "CONTENT-LENGTH:0"], []), body))
  {
    NothingDeclared(lines, 0);
    PostIsRelayed(lines, body, path, query, ch);
    assert "CONTENT-LENGTH:" + Print(0) == "CONTENT-LENGTH:0" by {
      assert Print(0) == "0";
    }
  }

  /** One whose last length is -1 starts no program and leaves the body. */
  lemma {:induction false} PostRefused(lines: seq<string>, k: nat, ows: string, body: seq<char>,
                                       path: string, query: string, ch: char)
    requires IsHead(lines) && LengthsFit(lines) && AllBlank(ows) && ows != ""
    requires k < |lines| && lines[k] == "Content-Length:" + ows + "-1"
    requires forall i | k < i < |lines| :: !("Content-Length:" <= lines[i])
    ensures CgiOutcome(PrintHead(lines) + body, path, "POST", query, ch) == Some((Refused, body))
  {
    assert Print(-1) == "-1";
    SignedLengthIsRead(ows, -1, "\n");
    DeclaredOnce(lines, k, 0);
    PostIsRelayed(lines, body, path, query, ch);
  }
}
