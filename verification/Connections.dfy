/** Whole connections as a client sees them: printed requests in, and what `Accept` does with
    each, stated of the bytes alone. */
module Connections {
  import opened Wrappers
  import opened Decimal
  import opened HttpHead
  import opened CgiRelay
  import opened Ledger
  import opened LedgerRuns
  import opened Server
  import FormText
  import opened RequestLine
  import WorkTime

  /** A request for a file, by GET without a '?' or by any method but POST: the file below the root,
      the index file of a directory, or nothing; the ledger stays as it is. */
  method FileConnection(server: ServerHttp, sock: Socket, httpMethod: string, url: string, version: string,
                        lines: seq<string>, body: seq<char>, now: int, stamp: string, pointerSize: nat, ch: char,
                        stat: Stat, opens: bool)
    returns (served: Served)
    requires server.Valid() && IsHead(lines)
    requires RequestFits(httpMethod, url, version) && httpMethod != "POST" && (httpMethod == "GET" ==> '?' !in url)
    requires sock.input == PrintRequest(httpMethod, url, version, PrintHead(lines) + body)
    requires stat == Directory ==> |"htdocs" + url + IndexFor(url) + "/index.html"| < PATH_SIZE
    modifies server, sock
    ensures server.Valid() && server.v == old(server.v) && server.history == old(server.history)
    ensures stat == Missing ==> served == NotServed && sock.input == PrintHead(lines) + body
    ensures stat != Missing ==> sock.input == body
    ensures stat == Regular && opens ==> served == File("htdocs" + url + IndexFor(url))
    ensures stat == Directory && opens ==> served == File("htdocs" + url + IndexFor(url) + "/index.html")
    ensures stat == Regular && !opens ==> served == Unopened("htdocs" + url + IndexFor(url))
    ensures stat == Directory && !opens ==> served == Unopened("htdocs" + url + IndexFor(url) + "/index.html")
  {
    FileRequest(sock.input, httpMethod, url, version, lines, body, stat);
    ghost var path := "htdocs" + url + IndexFor(url);
    StatDecides(path, stat, opens);
    served := Accept(server, sock, now, stamp, pointerSize, ch, stat, opens);
  }

  lemma {:induction false} StatDecides(path: string, stat: Stat, opens: bool)
    ensures ServedFile(path, Missing, opens) == NotServed
    ensures ServedFile(path, Regular, opens) == if opens then File(path) else Unopened(path)
    ensures ServedFile(path, Directory, opens)
         == if opens then File(path + "/index.html") else Unopened(path + "/index.html")
  {
    assert path + "" == path && "/" + INDEX == "/index.html";
  }

  /** Any connection that submits `name` and `id`. */
  method ProgramConnection(server: ServerHttp, sock: Socket, name: string, id: string,
                           now: int, stamp: string, pointerSize: nat, ch: char, stat: Stat, opens: bool)
    returns (served: Served)
    requires server.Valid() && CheckInDefined(sock.input, server.v, now, stamp, ch)
    requires SubmissionOf(sock.input, now, stamp) == Submission(name, id, now, stamp)
    modifies server, sock
    ensures server.Valid()
    ensures server.history == old(server.history) + [Submission(name, id, now, stamp)]
    ensures served.Cgi?
    ensures served.line == VisitLine(Visits(old(server.history), name, id), Submission(name, id, now, stamp))
    ensures var s := old(sock.input);
            CgiOutcome(LineRest(s, SIZE), FileOf(s), MethodOf(s), QueryOf(s), ch) ==
            Some((served.result, sock.input))
  {
    CheckInLine(sock.input, server.history, server.v, now, stamp, ch, name, id);
    served := Accept(server, sock, now, stamp, pointerSize, ch, stat, opens);
  }

  /** A form in the url of a GET: one submission, the line that this visit composes, and the
      program of the page with the same form in its environment. */
  method GetConnection(server: ServerHttp, sock: Socket, page: string, k1: string, name: string, k2: string,
                       id: string, version: string, lines: seq<string>, body: seq<char>,
                       now: int, stamp: string, pointerSize: nat, ch: char, stat: Stat, opens: bool)
    returns (served: Served)
    requires server.Valid() && IsHead(lines)
    requires RequestFits("GET", page + "?" + FormText.PrintForm(k1, name, k2, id), version)
    requires |FormText.PrintForm(k1, name, k2, id)| + 13 < QUERY_SIZE
    requires '?' !in page && '=' !in k1 && '=' !in k2 && '&' !in name
    requires sock.input
          == PrintRequest("GET", page + "?" + FormText.PrintForm(k1, name, k2, id), version, PrintHead(lines) + body)
    requires Representable(server.v, Submission(name, id, now, stamp))
    modifies server, sock
    ensures server.Valid() && sock.input == body
    ensures server.history == old(server.history) + [Submission(name, id, now, stamp)]
    ensures served == Cgi(
      VisitLine(Visits(old(server.history), name, id), Submission(name, id, now, stamp)),
      Started("htdocs" + page + IndexFor(page),
              ["REQUEST_METHOD:GET", "QUERY_STRING:" + (k1 + "=" + name + "&" + k2 + "=" + id)],
              []))
  {
    var s := sock.input;
    CheckInByGet(s, page, k1, name, k2, id, version, lines, body, server.v, now, stamp, ch);
    served := ProgramConnection(server, sock, name, id, now, stamp, pointerSize, ch, stat, opens);
  }

  /** A form in the url of a POST: one submission and its line too, and the program that the whole
      url names, with the declared length in its environment and as much of the body on its pipe. */
  method PostConnection(server: ServerHttp, sock: Socket, url: string, page: string, k1: string, name: string,
                        k2: string, id: string, version: string, lines: seq<string>, k: nat, ows: string,
                        digits: string, n: nat, body: seq<char>, now: int, stamp: string, pointerSize: nat,
                        ch: char, stat: Stat, opens: bool)
    returns (served: Served)
    requires url == page + FormText.PrintForm(k1, name, k2, id) && n == ReadDigits(digits, 0) <= |body|
    requires server.Valid() && IsHead(lines) && LengthsFit(lines)
    requires RequestFits("POST", url, version)
    requires '=' !in page && '=' !in k1 && '=' !in k2 && '&' !in name
    requires sock.input == PrintRequest("POST", url, version, PrintHead(lines) + body)
    requires k < |lines| && lines[k] == "Content-Length:" + ows + digits
    requires AllBlank(ows) && AllDigits(digits) && digits != "" && (ows != "" || digits[0] == '0')
    requires forall i | k < i < |lines| :: !("Content-Length:" <= lines[i])
    requires Representable(server.v, Submission(name, id, now, stamp))
    modifies server, sock
    ensures server.Valid() && sock.input == body[n..]
    ensures server.history == old(server.history) + [Submission(name, id, now, stamp)]
    ensures served == Cgi(
      VisitLine(Visits(old(server.history), name, id), Submission(name, id, now, stamp)),
      Started("htdocs" + url + IndexFor(url), ["REQUEST_METHOD:POST", "CONTENT-LENGTH:" + Print(n)], body[..n]))
  {
    ghost var s := sock.input;
    CheckInByPost(s, page, k1, name, k2, id, version, lines, k, ows, digits, body, server.v, now, stamp, ch);
    PostStarts("htdocs" + url + IndexFor(url), n, body, ch);
    served := ProgramConnection(server, sock, name, id, now, stamp, pointerSize, ch, stat, opens);
  }

  lemma {:induction false} PostStarts(path: string, n: nat, body: seq<char>, ch: char)
    requires n <= |body|
    ensures PostResult(path, n, body, ch)
         == (Started(path, ["REQUEST_METHOD:POST", "CONTENT-LENGTH:" + Print(n)], body[..n]), body[n..])
  {}

  lemma {:induction false} CheckInLine(
      s: seq<char>, history: seq<Submission>, v: seq<WorkTime.UserNode>, now: int, stamp: string, ch: char,
      name: string, id: string)
    requires v == Run(history) && AllClean(history)
    requires CheckInDefined(s, v, now, stamp, ch)
    requires SubmissionOf(s, now, stamp) == Submission(name, id, now, stamp)
    ensures LineFor(v, SubmissionOf(s, now, stamp))
         == VisitLine(Visits(history, name, id), Submission(name, id, now, stamp))
  {
    RequestHasNoNul(s);
    FormText.FieldsHaveNoNul(QueryOf(s));
    LineOfVisit(history, Submission(name, id, now, stamp));
  }
}
