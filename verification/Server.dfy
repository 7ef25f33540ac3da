/** One connection from its first byte to its last (`Accept`, `exec_get`, `exec_post`). */
module Server {
  import opened Wrappers
  import opened CStrings
  import opened Decimal
  import opened HttpHead
  import opened CgiRelay
  import opened RequestLine
  import opened Ledger
  import FormText

  const URL_SIZE := 512
  const TREATY_SIZE := 512
  const PATH_SIZE := 512

  /** What `stat` says about the path. */
  datatype Stat = Missing | Regular | Directory

  /** `Unopened` is the file that `fopen` refuses; closing it is then undefined in C. */
  datatype Served = NotServed | File(path: string) | Unopened(path: string) | Cgi(line: string, result: CgiResult)

  // ---------------------------------------------------------------------------
  // What the stream of a connection asks for
  // ---------------------------------------------------------------------------

  /** The request buffer after its one line has been read. */
  function RequestBuffer(s: seq<char>): (b: seq<char>)
    requires LineFits(s, SIZE)
    ensures |b| == SIZE
  {
    Overlay(Zeros(SIZE), LineText(s, SIZE) + [NUL])
  }

  predicate RequestReadable(s: seq<char>) {
    && LineFits(s, SIZE)
    && LineFitsBuffers(RequestBuffer(s), PATH_SIZE, METHOD_SIZE, URL_SIZE, QUERY_SIZE, TREATY_SIZE)
  }

  function MethodOf(s: seq<char>): string
    requires RequestReadable(s)
  {
    MethodWord(RequestBuffer(s))
  }

  function UrlOf(s: seq<char>): string
    requires RequestReadable(s)
  {
    UrlWord(RequestBuffer(s))
  }

  function QueryOf(s: seq<char>): string
    requires RequestReadable(s)
  {
    QueryPart(MethodOf(s), UrlOf(s))
  }

  function FileOf(s: seq<char>): string
    requires RequestReadable(s)
  {
    PathOf(UrlPart(MethodOf(s), UrlOf(s)))
  }

  function SubmissionOf(s: seq<char>, now: int, stamp: string): Submission
    requires RequestReadable(s)
  {
    Submission(FormText.NameOf(QueryOf(s)), FormText.IdOf(QueryOf(s)), now, stamp)
  }

  /** A CGI request the code handles within its buffers and number types. */
  predicate CheckInDefined(s: seq<char>, v: seq<WorkTime.UserNode>, now: int, stamp: string, ch: char) {
    && RequestReadable(s) && WantsCgi(MethodOf(s), UrlOf(s))
    && FormText.HasSecondField(QueryOf(s))
    && Representable(v, SubmissionOf(s, now, stamp))
    && CgiOutcome(LineRest(s, SIZE), FileOf(s), MethodOf(s), QueryOf(s), ch).Some?
  }

  predicate FileDefined(s: seq<char>, stat: Stat) {
    && RequestReadable(s) && !WantsCgi(MethodOf(s), UrlOf(s))
    && (stat != Missing ==> AfterHead(LineRest(s, SIZE)).Some?)
    && (stat == Directory ==> |FileOf(s)| + 11 < PATH_SIZE)
  }

  // ---------------------------------------------------------------------------
  // Accept
  // ---------------------------------------------------------------------------

  lemma {:induction false} RequestHasNoNul(s: seq<char>)
    requires RequestReadable(s)
    ensures NUL !in MethodOf(s) && NUL !in QueryOf(s) && NUL !in FileOf(s)
  {
    WordsHaveNoNul(RequestBuffer(s));
    SplitParts(MethodOf(s), UrlOf(s));
  }

  method ReadRequest(sock: Socket) returns (httpMethod: string, path: string, query: string, cgi: int)
    requires RequestReadable(sock.input)
    modifies sock
    ensures var s := old(sock.input);
            && httpMethod == MethodOf(s) && path == FileOf(s) && query == QueryOf(s)
            && (cgi != 0 <==> WantsCgi(MethodOf(s), UrlOf(s)))
            && sock.input == LineRest(s, SIZE)
  {
    ghost var s := sock.input;
    var buf := NewBuffer(SIZE);
    var meth := NewBuffer(METHOD_SIZE);
    var url := NewBuffer(URL_SIZE);
    var pathBuf := NewBuffer(PATH_SIZE);
    var queryBuf := NewBuffer(QUERY_SIZE);
    var treaty := NewBuffer(TREATY_SIZE);
    var n := GetLine(sock, buf, SIZE);
    assert buf[..] == RequestBuffer(s);
    cgi := GetPathMethodQuery(buf, 0, pathBuf, meth, url, queryBuf, treaty);
    RequestHasNoNul(s);
    CStrOfOverlay(meth[..], MethodOf(s));
    CStrOfOverlay(pathBuf[..], FileOf(s));
    CStrOfOverlay(queryBuf[..], QueryOf(s));
    httpMethod, path, query := CStr(meth[..], 0), CStr(pathBuf[..], 0), CStr(queryBuf[..], 0);
  }

  function ServedFile(path: string, stat: Stat, opens: bool): Served {
    var file := path + if stat == Directory then "/" + INDEX else "";
    if stat == Missing then NotServed else if opens then File(file) else Unopened(file)
  }

  /** `opens` tells whether `fopen` opens the file. */
  method ExecGet(sock: Socket, path: string, stat: Stat, opens: bool) returns (served: Served)
    requires stat != Missing ==> AfterHead(sock.input).Some?
    modifies sock
    ensures served == ServedFile(path, stat, opens)
    ensures if stat == Missing then sock.input == old(sock.input)
            else AfterHead(old(sock.input)) == Some(sock.input)
  {
    if stat == Missing {
      return NotServed;
    }
    var file := if stat == Directory then path + "/" + INDEX else path;
    SkipHeadOfFileRequest(sock);
    served := if opens then File(file) else Unopened(file);
  }

  method ExecPost(server: ServerHttp, sock: Socket, path: string, httpMethod: string, query: string,
                  now: int, stamp: string, pointerSize: nat, ch: char)
    returns (line: string, result: CgiResult)
    requires server.Valid() && NUL !in httpMethod && NUL !in query && FormText.HasSecondField(query)
    requires Representable(server.v, Submission(FormText.NameOf(query), FormText.IdOf(query), now, stamp))
    requires CgiOutcome(sock.input, path, httpMethod, query, ch).Some?
    modifies server, sock
    ensures server.Valid()
    ensures var s := Submission(FormText.NameOf(query), FormText.IdOf(query), now, stamp);
            && server.history == old(server.history) + [s] && server.v == Submit(old(server.v), s)
            && line == LineFor(old(server.v), s)
    ensures CgiOutcome(old(sock.input), path, httpMethod, query, ch) == Some((result, sock.input))
  {
    line := server.SendVector(query, now, stamp, pointerSize);
    result := ExecCgi(sock, path, httpMethod, query, ch);
  }

  method Accept(server: ServerHttp, sock: Socket, now: int, stamp: string, pointerSize: nat, ch: char,
                stat: Stat, opens: bool)
    returns (served: Served)
    requires server.Valid()
    requires FileDefined(sock.input, stat) || CheckInDefined(sock.input, server.v, now, stamp, ch)
    modifies server, sock
    ensures server.Valid()
    ensures var s := old(sock.input);
            !WantsCgi(MethodOf(s), UrlOf(s)) ==>
              && server.v == old(server.v) && server.history == old(server.history)
              && served == ServedFile(FileOf(s), stat, opens)
              && (if stat == Missing then sock.input == LineRest(s, SIZE)
                  else AfterHead(LineRest(s, SIZE)) == Some(sock.input))
    ensures var s := old(sock.input);
            WantsCgi(MethodOf(s), UrlOf(s)) ==>
              && server.history == old(server.history) + [SubmissionOf(s, now, stamp)]
              && server.v == Submit(old(server.v), SubmissionOf(s, now, stamp))
              && served.Cgi? && served.line == LineFor(old(server.v), SubmissionOf(s, now, stamp))
              && CgiOutcome(LineRest(s, SIZE), FileOf(s), MethodOf(s), QueryOf(s), ch)
              == Some((served.result, sock.input))
  {
    ghost var s := sock.input;
    RequestHasNoNul(s);
    var httpMethod, path, query, cgi := ReadRequest(sock);
    if cgi == 0 {
      served := ExecGet(sock, path, stat, opens);
    } else {
      var line, result := ExecPost(server, sock, path, httpMethod, query, now, stamp, pointerSize, ch);
      served := Cgi(line, result);
    }
  }

  // ---------------------------------------------------------------------------
  // Requests as a client prints them
  // ---------------------------------------------------------------------------

  /** No byte that ends a line or a word. */
  predicate IsToken(t: string) {
    t != "" && ' ' !in t && forall i | 0 <= i < |t| :: !EndsLine(t[i])
  }

  function PrintRequest(httpMethod: string, url: string, version: string, rest: seq<char>): seq<char> {
    httpMethod + " " + url + " " + version + "\r\n" + rest
  }

  /** The words of a request line fit the buffers of `Accept`. */
  predicate RequestFits(httpMethod: string, url: string, version: string) {
    && IsToken(httpMethod) && IsToken(url) && IsToken(version)
    && |httpMethod| < METHOD_SIZE && |url| < URL_SIZE && |version| + 1 < TREATY_SIZE
    && |QueryPart(httpMethod, url)| < QUERY_SIZE && |PathOf(UrlPart(httpMethod, url))| < PATH_SIZE
    && |httpMethod| + |url| + |version| + 4 <= SIZE
  }

  lemma {:induction false} TokenHasNoNul(t: string)
    requires IsToken(t)
    ensures NUL !in t
  {
    forall i | 0 <= i < |t|
      ensures t[i] != NUL
    {
      assert !EndsLine(t[i]);
    }
  }

  lemma {:induction false} LineIsRead(line: string, rest: seq<char>)
    requires |line| + 2 <= SIZE && forall i | 0 <= i < |line| :: !EndsLine(line[i])
    ensures var s := line + "\r\n" + rest;
            && LineFits(s, SIZE) && LineRest(s, SIZE) == rest
            && line + "\n" + [NUL] <= RequestBuffer(s)
  {
    CrlfLine(line, rest, SIZE);
  }

  lemma {:induction false} BufferIsParsed(b: seq<char>, httpMethod: string, url: string, version: string)
    requires RequestFits(httpMethod, url, version)
    requires httpMethod + " " + url + " " + version + "\n" + [NUL] <= b
    ensures LineFitsBuffers(b, PATH_SIZE, METHOD_SIZE, URL_SIZE, QUERY_SIZE, TREATY_SIZE)
    ensures MethodWord(b) == httpMethod && UrlWord(b) == url
  {
    TokenHasNoNul(httpMethod);
    TokenHasNoNul(url);
    TokenHasNoNul(version);
    ParseUndoesPrinting(b, httpMethod, url, version);
  }

  lemma {:induction false} RequestIsRead(httpMethod: string, url: string, version: string, rest: seq<char>)
    requires RequestFits(httpMethod, url, version)
    ensures var s := PrintRequest(httpMethod, url, version, rest);
            && RequestReadable(s)
            && MethodOf(s) == httpMethod && UrlOf(s) == url
            && LineRest(s, SIZE) == rest
  {
    var line := httpMethod + " " + url + " " + version;
    var s := line + "\r\n" + rest;
    assert LineFits(s, SIZE) && LineRest(s, SIZE) == rest && line + "\n" + [NUL] <= RequestBuffer(s) by {
      LineIsRead(line, rest);
    }
    BufferIsParsed(RequestBuffer(s), httpMethod, url, version);
  }

  /** What completes a path that ends in a slash. */
  function IndexFor(path: string): string {
    if path != "" && path[|path| - 1] == '/' then "index.html" else ""
  }

  lemma {:induction false} PathIsBelowRoot(page: string)
    ensures PathOf(page) == "htdocs" + page + IndexFor(page)
  {
    PathIsCompleted(page);
    var p := ROOT + page;
    assert p[|p| - 1] == if page == "" then ROOT[5] else page[|page| - 1];
  }

  /** A GET with a '?': the file before it, the query after it. */
  lemma {:induction false} AskedWithMark(page: string, form: string, version: string, rest: seq<char>)
    requires RequestFits("GET", page + "?" + form, version) && '?' !in page
    ensures var s := PrintRequest("GET", page + "?" + form, version, rest);
            && RequestReadable(s) && LineRest(s, SIZE) == rest
            && MethodOf(s) == "GET" && WantsCgi(MethodOf(s), UrlOf(s))
            && FileOf(s) == "htdocs" + page + IndexFor(page) && QueryOf(s) == form
  {
    RequestIsRead("GET", page + "?" + form, version, rest);
    QueryAfterMark(page, form);
  }

  /** A GET without one, or any other method: the file is the whole url, which for another method
      is the query too; of these only a POST runs a program. */
  lemma {:induction false} AskedPlainly(httpMethod: string, url: string, version: string, rest: seq<char>)
    requires RequestFits(httpMethod, url, version) && (httpMethod == "GET" ==> '?' !in url)
    ensures var s := PrintRequest(httpMethod, url, version, rest);
            && RequestReadable(s) && LineRest(s, SIZE) == rest
            && MethodOf(s) == httpMethod && (WantsCgi(MethodOf(s), UrlOf(s)) <==> httpMethod == "POST")
            && FileOf(s) == "htdocs" + url + IndexFor(url)
            && QueryOf(s) == if httpMethod == "GET" then "" else url
  {
    RequestIsRead(httpMethod, url, version, rest);
    PathIsBelowRoot(url);
    FirstOfIs(url, '?', 0, if httpMethod == "GET" then |url| else FirstOf(url, '?', 0));
    assert url[..|url|] == url;
  }

  /** A printed request for a file, by GET or by any method but POST: it is defined, asks for the
      file below the root, and its head ends where the body begins. */
  lemma {:induction false} FileRequest(
      s: seq<char>, httpMethod: string, url: string, version: string, lines: seq<string>, body: seq<char>, stat: Stat)
    requires RequestFits(httpMethod, url, version) && httpMethod != "POST" && (httpMethod == "GET" ==> '?' !in url)
    requires IsHead(lines) && s == PrintRequest(httpMethod, url, version, PrintHead(lines) + body)
    requires stat == Directory ==> |"htdocs" + url + IndexFor(url) + "/index.html"| < PATH_SIZE
    ensures FileDefined(s, stat) && LineRest(s, SIZE) == PrintHead(lines) + body
    ensures FileOf(s) == "htdocs" + url + IndexFor(url) && AfterHead(LineRest(s, SIZE)) == Some(body)
  {
    AskedPlainly(httpMethod, url, version, PrintHead(lines) + body);
    HeadIsConsumed(lines, body);
  }

  /** What it takes for a readable request to be the submission of a name and an id. */
  lemma {:induction false} CheckInIsDefined(
      s: seq<char>, query: string, name: string, id: string, v: seq<WorkTime.UserNode>,
      now: int, stamp: string, ch: char, program: string, outcome: (CgiResult, seq<char>))
    requires RequestReadable(s) && WantsCgi(MethodOf(s), UrlOf(s)) && QueryOf(s) == query && FileOf(s) == program
    requires FormText.HasSecondField(query)
    requires FormText.NameOf(query) == name && FormText.IdOf(query) == id
    requires Representable(v, Submission(name, id, now, stamp))
    requires CgiOutcome(LineRest(s, SIZE), program, MethodOf(s), query, ch) == Some(outcome)
    ensures CheckInDefined(s, v, now, stamp, ch)
    ensures SubmissionOf(s, now, stamp) == Submission(name, id, now, stamp)
    ensures CgiOutcome(LineRest(s, SIZE), FileOf(s), MethodOf(s), QueryOf(s), ch) == Some(outcome)
  {}

  /** A GET starts the program with the query in its environment and nothing on its pipe. */
  lemma {:induction false} GetIsStarted(lines: seq<string>, body: seq<char>, path: string, query: string, ch: char)
    requires IsHead(lines) && |query| + 13 < QUERY_SIZE
    ensures CgiOutcome(PrintHead(lines) + body, path, "GET", query, ch)
         == Some((Started(path, ["REQUEST_METHOD:GET", "QUERY_STRING:" + query], []), body))
  {
    HeadIsConsumed(lines, body);
    assert "REQUEST_METHOD:" + "GET" == "REQUEST_METHOD:GET";
  }

  /** A check-in by GET: the form printed after the '?' becomes exactly one submission of
      that name and id, the program named by the page is given the same form, and the stream is
      left at the first byte after the head. */
  lemma {:induction false} CheckInByGet(
      s: seq<char>, page: string, k1: string, name: string, k2: string, id: string, version: string,
      lines: seq<string>, body: seq<char>, v: seq<WorkTime.UserNode>, now: int, stamp: string, ch: char)
    requires var url := page + "?" + FormText.PrintForm(k1, name, k2, id);
             && RequestFits("GET", url, version)
             && |FormText.PrintForm(k1, name, k2, id)| + 13 < QUERY_SIZE
             && s == PrintRequest("GET", url, version, PrintHead(lines) + body)
    requires '?' !in page && '=' !in k1 && '=' !in k2 && '&' !in name
    requires IsHead(lines) && Representable(v, Submission(name, id, now, stamp))
    ensures CheckInDefined(s, v, now, stamp, ch)
    ensures SubmissionOf(s, now, stamp) == Submission(name, id, now, stamp)
    ensures var form := k1 + "=" + name + "&" + k2 + "=" + id;
            CgiOutcome(LineRest(s, SIZE), FileOf(s), MethodOf(s), QueryOf(s), ch) ==
            Some((Started("htdocs" + page + IndexFor(page), ["REQUEST_METHOD:GET", "QUERY_STRING:" + form], []), body))
  {
    var form := FormText.PrintForm(k1, name, k2, id);
    var program := "htdocs" + page + IndexFor(page);
    AskedWithMark(page, form, version, PrintHead(lines) + body);
    FormText.GetStringUndoesPrinting(k1, name, k2, id);
    GetIsStarted(lines, body, program, form, ch);
    CheckInIsDefined(s, form, name, id, v, now, stamp, ch, program,
      (Started(program, ["REQUEST_METHOD:GET", "QUERY_STRING:" + form], []), body));
  }

  lemma {:induction false} QueryAfterMark(page: string, form: string)
    requires '?' !in page
    ensures QueryPart("GET", page + "?" + form) == form && WantsCgi("GET", page + "?" + form)
    ensures PathOf(UrlPart("GET", page + "?" + form)) == "htdocs" + page + IndexFor(page)
  {
    var url := page + "?" + form;
    assert forall i | 0 <= i < |page| :: url[i] == page[i] && page[i] in page;
    FirstOfIs(url, '?', 0, |page|);
    assert url[|page|] == '?' && url[|page| + 1..] == form && url[..|page|] == page;
    PathIsBelowRoot(page);
  }

  lemma {:induction false} WholeUrlIsForm(page: string, k1: string, name: string, k2: string, id: string)
    requires '=' !in page && '=' !in k1 && '=' !in k2 && '&' !in name
    ensures var q := page + FormText.PrintForm(k1, name, k2, id);
            && FormText.HasSecondField(q) && FormText.NameOf(q) == name && FormText.IdOf(q) == id
  {
    assert page + FormText.PrintForm(k1, name, k2, id) == FormText.PrintForm(page + k1, name, k2, id);
    FormText.GetStringUndoesPrinting(page + k1, name, k2, id);
  }

  /** A check-in by POST is read from the url as well, page and all, and so is the program; it is
      told the length that the head declares and given as much of the body. */
  lemma {:induction false} CheckInByPost(
      s: seq<char>, page: string, k1: string, name: string, k2: string, id: string, version: string,
      lines: seq<string>, k: nat, ows: string, digits: string, body: seq<char>,
      v: seq<WorkTime.UserNode>, now: int, stamp: string, ch: char)
    requires var url := page + FormText.PrintForm(k1, name, k2, id);
             && RequestFits("POST", url, version)
             && s == PrintRequest("POST", url, version, PrintHead(lines) + body)
    requires '=' !in page && '=' !in k1 && '=' !in k2 && '&' !in name
    requires IsHead(lines) && LengthsFit(lines)
    requires k < |lines| && lines[k] == "Content-Length:" + ows + digits
    requires AllBlank(ows) && AllDigits(digits) && digits != "" && (ows != "" || digits[0] == '0')
    requires forall i | k < i < |lines| :: !("Content-Length:" <= lines[i])
    requires Representable(v, Submission(name, id, now, stamp))
    ensures CheckInDefined(s, v, now, stamp, ch)
    ensures SubmissionOf(s, now, stamp) == Submission(name, id, now, stamp)
    ensures var url, n := page + FormText.PrintForm(k1, name, k2, id), ReadDigits(digits, 0);
            CgiOutcome(LineRest(s, SIZE), FileOf(s), MethodOf(s), QueryOf(s), ch) ==
            Some(PostResult("htdocs" + url + IndexFor(url), n, body, ch))
  {
    var url := page + FormText.PrintForm(k1, name, k2, id);
    var program, n := "htdocs" + url + IndexFor(url), ReadDigits(digits, 0);
    AskedPlainly("POST", url, version, PrintHead(lines) + body);
    WholeUrlIsForm(page, k1, name, k2, id);
    PostBodyIsRelayed(lines, k, ows, digits, body, program, url, ch);
    CheckInIsDefined(s, url, name, id, v, now, stamp, ch, program, PostResult(program, n, body, ch));
  }
}
