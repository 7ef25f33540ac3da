/** The request line: `get_comm` and `get_path_method_query`. */
module RequestLine {
  import opened CStrings

  // ---------------------------------------------------------------------------
  // Words
  // ---------------------------------------------------------------------------

  function SkipSpaces(t: string): (r: string)
    ensures |r| <= |t|
  {
    if t != [] && t[0] == ' ' then SkipSpaces(t[1..]) else t
  }

  function UpToSpace(t: string): string {
    t[..FirstOf(t, ' ', 0)]
  }

  /** The next word of a text, without the spaces before it. */
  function Word(t: string): (w: string)
    ensures |w| <= |t| && ' ' !in w
  {
    UpToSpace(SkipSpaces(t))
  }

  lemma {:induction false} NextChar(b: seq<char>, at: nat)
    requires Terminated(b, at) && b[at] != NUL
    ensures Terminated(b, at + 1)
    ensures CStr(b, at) == [b[at]] + CStr(b, at + 1)
  {}

  /** The first loop of `get_comm`. */
  method SkipToWord(buf: array<char>, from: nat) returns (j: nat)
    requires Terminated(buf[..], from)
    ensures Terminated(buf[..], j) && CStr(buf[..], j) == SkipSpaces(CStr(buf[..], from))
  {
    ghost var b := buf[..];
    ghost var end := FirstOf(b, NUL, from);
    j := from;
    while buf[j] == ' '
      invariant from <= j <= end && Terminated(b, j) && FirstOf(b, NUL, j) == end
      invariant SkipSpaces(CStr(b, j)) == SkipSpaces(CStr(b, from))
      decreases end - j
    {
      NextChar(b, j);
      assert CStr(b, j)[1..] == CStr(b, j + 1);
      j := j + 1;
    }
  }

  /** `w` stands in the buffer at `from`, and a space or the terminator ends it. */
  predicate StandsAt(b: seq<char>, from: nat, w: string) {
    && from + |w| < |b|
    && (forall i | 0 <= i < |w| :: b[from + i] == w[i] && w[i] != ' ' && w[i] != NUL)
    && (b[from + |w|] == ' ' || b[from + |w|] == NUL)
  }

  lemma {:induction false} WordStands(b: seq<char>, from: nat)
    requires Terminated(b, from)
    ensures StandsAt(b, from, UpToSpace(CStr(b, from)))
  {
    var t := CStr(b, from);
    assert b[from + |t|] == NUL;
    assert forall i | 0 <= i < |t| :: t[i] == b[from + i] && t[i] in t;
  }

  /** The second loop of `get_comm`: no terminator is written. */
  method CopyUpToSpace(buf: array<char>, from: nat, str: array<char>, ghost w: string) returns (i: nat)
    requires buf != str && StandsAt(buf[..], from, w) && |w| <= str.Length
    modifies str
    ensures i == |w| && str[..] == Overlay(old(str[..]), w)
  {
    ghost var was := str[..];
    var j := from;
    i := 0;
    while buf[j] != ' '
      invariant i <= |w| && j == from + i && (i < |w| ==> buf[j] == w[i])
      invariant StandsAt(buf[..], from, w)
      invariant str[..] == Overlay(was, w[..i])
      decreases |w| - i
    {
      if buf[j] == NUL {
        break;
      }
      OverlayNext(was, w[..i], w[i]);
      assert w[..i] + [w[i]] == w[..i + 1];
      str[i] := buf[j];
      i, j := i + 1, j + 1;
    }
    assert w[..i] == w;
  }

  /** `w` names the word that is read. */
  method GetComm(buf: array<char>, from: nat, str: array<char>, ghost w: string) returns (i: nat)
    requires buf != str && Terminated(buf[..], from)
    requires w == Word(CStr(buf[..], from)) && |w| <= str.Length
    modifies str
    ensures i == |w| && str[..] == Overlay(old(str[..]), w)
  {
    var j := SkipToWord(buf, from);
    WordStands(buf[..], j);
    i := CopyUpToSpace(buf, j, str, w);
  }

  // ---------------------------------------------------------------------------
  // Splitting the line
  // ---------------------------------------------------------------------------

  function MethodWord(b: seq<char>): string
    requires Terminated(b, 0)
  {
    Word(CStr(b, 0))
  }

  /** `buf + len + 1`, with `len` the length of the method. */
  function UrlFrom(b: seq<char>): nat
    requires Terminated(b, 0)
  {
    |MethodWord(b)| + 1
  }

  function UrlWord(b: seq<char>): string
    requires Terminated(b, 0) && Terminated(b, UrlFrom(b))
  {
    Word(CStr(b, UrlFrom(b)))
  }

  /** `buf + len + 1` again: `len` counts the two words but neither separator. */
  function TreatyFrom(b: seq<char>): nat
    requires Terminated(b, 0) && Terminated(b, UrlFrom(b))
  {
    |MethodWord(b)| + |UrlWord(b)| + 1
  }

  predicate LineTerminated(b: seq<char>) {
    Terminated(b, 0) && Terminated(b, UrlFrom(b)) && Terminated(b, TreatyFrom(b))
  }

  function TreatyWord(b: seq<char>): string
    requires LineTerminated(b)
  {
    Word(CStr(b, TreatyFrom(b)))
  }

  lemma {:induction false} TextAt(b: seq<char>, t: string, at: nat)
    requires at <= |t| < |b| && NUL !in t && b[..|t| + 1] == t + [NUL]
    ensures Terminated(b, at) && CStr(b, at) == t[at..]
  {
    var p := b[..|t| + 1];
    assert b[|t|] == p[|t|] == NUL;
    assert b[at..|t|] == p[at..|t|];
    assert p[at..|t|] == t[at..];
    CStrOfPrinted(b, at, t[at..]);
  }

  /** A word stands at `from..to`: a space or the end of the text follows. */
  predicate WordAt(t: string, from: nat, to: nat) {
    && from < to <= |t|
    && (forall i | from <= i < to :: t[i] != ' ')
    && (to < |t| ==> t[to] == ' ')
  }

  predicate Blank(t: string, from: nat, to: nat)
    requires to <= |t|
  {
    forall i | from <= i < to :: t[i] == ' '
  }

  /** Reading from among the spaces before a word gives the word, and from inside the word the
      part that is left of it. */
  lemma {:induction false} ReadFrom(t: string, at: nat, from: nat, to: nat)
    requires WordAt(t, from, to) && at < to && Blank(t, at, from)
    ensures Word(t[at..]) == t[if at < from then from else at..to]
    decreases from - at
  {
    if at < from {
      assert t[at..][1..] == t[at + 1..];
      ReadFrom(t, at + 1, from, to);
    } else {
      var r := t[at..];
      assert r[0] == t[at];
      FirstOfIs(r, ' ', 0, to - at);
      assert r[..to - at] == t[at..to];
    }
  }

  /** The places of a line: the method at `l..i`, the url at `p..j`, the rest from `q` on. */
  datatype Places = Places(l: nat, i: nat, p: nat, j: nat, q: nat)
  {
    predicate In(t: string) {
      && i < p && j < q
      && WordAt(t, l, i) && WordAt(t, p, j) && WordAt(t, q, |t|)
      && Blank(t, 0, l) && Blank(t, i, p) && Blank(t, j, q)
    }

    /** Where the word begins that is read from `at`. */
    function From(at: nat): nat {
      var start := if at < i then l else if at < j then p else q;
      if at < start then start else at
    }

    function To(at: nat, end: nat): nat {
      if at < i then i else if at < j then j else end
    }
  }

  lemma {:induction false} ReadAt(t: string, x: Places, at: nat)
    requires x.In(t) && at < |t|
    ensures x.From(at) <= x.To(at, |t|) <= |t|
    ensures Word(t[at..]) == t[x.From(at)..x.To(at, |t|)]
  {
    if at < x.i {
      ReadFrom(t, at, x.l, x.i);
    } else if at < x.j {
      ReadFrom(t, at, x.p, x.j);
    } else {
      ReadFrom(t, at, x.q, |t|);
    }
  }

  function Spaces(n: nat): (t: string)
    ensures |t| == n && forall i | 0 <= i < n :: t[i] == ' '
  {
    seq(n, _ => ' ')
  }

  /** A request line with `l` spaces before the method, `a` after it and `c` after the url. */
  function SpacedLine(l: nat, m: string, a: nat, u: string, c: nat, tail: string): string {
    Spaces(l) + m + Spaces(a) + u + Spaces(c) + tail
  }

  lemma {:induction false} WordStandsAfter(t: string, x: string, w: string, y: string)
    requires t == x + w + y && w != "" && ' ' !in w && (y != "" ==> y[0] == ' ')
    ensures WordAt(t, |x|, |x| + |w|) && t[|x|..|x| + |w|] == w
  {
    assert forall k | |x| <= k < |x| + |w| :: t[k] == w[k - |x|] && w[k - |x|] in w;
  }

  lemma {:induction false} BlankAfter(t: string, x: string, n: nat, y: string)
    requires t == x + Spaces(n) + y
    ensures Blank(t, |x|, |x| + n)
  {}

  lemma {:induction false} PlacesOfSpacedLine(l: nat, m: string, a: nat, u: string, c: nat, tail: string)
    returns (x: Places)
    requires m != "" && u != "" && tail != "" && a >= 1 && c >= 1
    requires ' ' !in m && ' ' !in u && ' ' !in tail
    ensures Holds(SpacedLine(l, m, a, u, c, tail), x, m, u, tail) && x.l == l && x.p == x.i + a
  {
    var t := SpacedLine(l, m, a, u, c, tail);
    var t1 := Spaces(l) + m;
    var t2 := t1 + Spaces(a) + u;
    x := Places(l, |t1|, |t1| + a, |t2|, |t2| + c);
    Grouped(Spaces(l), m, Spaces(a), u, Spaces(c), tail);
    BlankAfter(t, "", l, m + Spaces(a) + u + Spaces(c) + tail);
    WordStandsAfter(t, Spaces(l), m, Spaces(a) + u + Spaces(c) + tail);
    BlankAfter(t, t1, a, u + Spaces(c) + tail);
    WordStandsAfter(t, t1 + Spaces(a), u, Spaces(c) + tail);
    BlankAfter(t, t2, c, tail);
    WordStandsAfter(t, t2 + Spaces(c), tail, "");
  }

  lemma {:induction false} Grouped(l: string, m: string, a: string, u: string, c: string, tail: string)
    ensures var t := l + m + a + u + c + tail;
            && t == "" + l + (m + a + u + c + tail)
            && t == l + m + (a + u + c + tail)
            && t == (l + m) + a + (u + c + tail)
            && t == (l + m + a) + u + (c + tail)
            && t == (l + m + a + u) + c + tail
            && t == (l + m + a + u + c) + tail + ""
  {}

  /** The last `n` characters of a word, or all of it. */
  function Last(w: string, n: nat): string {
    if n < |w| then w[|w| - n..] else w
  }

  /** The word that is taken for the url. */
  function UrlFound(l: nat, m: string, u: string): string {
    if l <= 1 then u else Last(m, l - 1)
  }

  /** The word that is taken for the version. */
  function VersionFound(l: nat, m: string, a: nat, u: string, tail: string): string
    requires a >= 1
  {
    if l == 0 && a == 1 then tail
    else if l <= 1 then Last(u, l + a - 1)
    else if l - 1 <= |m| then u
    else Last(m, l - 1 - |m|)
  }

  lemma {:induction false} OnlyTightLines(l: nat, m: string, a: nat, u: string, v: string)
    requires a >= 1 && '\n' !in m && '\n' !in u
    ensures VersionFound(l, m, a, u, v + "\n") == v + "\n" <==> l == 0 && a == 1
  {
    assert (v + "\n")[|v|] == '\n';
  }

  /** The words that stand at these places. */
  predicate Holds(t: string, x: Places, m: string, u: string, tail: string) {
    x.In(t) && t[x.l..x.i] == m && t[x.p..x.j] == u && t[x.q..] == tail
  }

  /** What a read from `at` gives, in a line with `l` spaces, `m`, `a` spaces, `u`, and spaces up
      to `tail`: what is left of the word there, or the whole word that comes next. */
  function ReadResult(l: nat, m: string, a: nat, u: string, tail: string, end: nat, at: nat): string
    requires at <= end
  {
    var i := l + |m|;
    var j := i + a + |u|;
    if at < i then Last(m, i - at) else if at < j then Last(u, j - at) else Last(tail, end - at)
  }

  lemma {:induction false} ReadAnywhere(t: string, x: Places, m: string, u: string, tail: string, at: nat)
    requires Holds(t, x, m, u, tail) && at < |t|
    ensures Word(t[at..]) == ReadResult(x.l, m, x.p - x.i, u, tail, |t|, at)
  {
    ReadAt(t, x, at);
    if at < x.i {
      PartOf(t, x.From(at), x.l, x.i, m);
    } else if at < x.j {
      PartOf(t, x.From(at), x.p, x.j, u);
    } else {
      assert t[x.q..|t|] == t[x.q..];
      PartOf(t, x.From(at), x.q, |t|, tail);
    }
  }

  lemma {:induction false} PartOf(t: string, at: nat, from: nat, to: nat, w: string)
    requires from <= at <= to <= |t| && t[from..to] == w
    ensures t[at..to] == Last(w, to - at)
  {
    assert t[at..to] == w[at - from..];
  }

  /** Such a line and its NUL are in the buffer, whatever follows. */
  predicate HoldsLine(b: seq<char>, l: nat, m: string, a: nat, u: string, c: nat, tail: string) {
    && m != "" && u != "" && tail != "" && a >= 1 && c >= 1
    && ' ' !in m && ' ' !in u && ' ' !in tail
    && NUL !in m && NUL !in u && NUL !in tail
    && SpacedLine(l, m, a, u, c, tail) + [NUL] <= b
  }

  lemma {:induction false} ReadFromLine(b: seq<char>, l: nat, m: string, a: nat, u: string, c: nat, tail: string, at: nat)
    requires HoldsLine(b, l, m, a, u, c, tail) && at < l + |m| + a + |u| + c + |tail|
    ensures Terminated(b, at)
    ensures Word(CStr(b, at)) == ReadResult(l, m, a, u, tail, l + |m| + a + |u| + c + |tail|, at)
  {
    var t := SpacedLine(l, m, a, u, c, tail);
    var x := PlacesOfSpacedLine(l, m, a, u, c, tail);
    ReadAnywhere(t, x, m, u, tail, at);
    assert b[..|t| + 1] == t + [NUL];
    TextAt(b, t, at);
  }

  lemma {:induction false} ThreeResults(l: nat, m: string, a: nat, u: string, tail: string, end: nat)
    requires m != "" && u != "" && a >= 1 && end > l + |m| + a + |u| + |tail|
    ensures var w := UrlFound(l, m, u);
            && |m| + |w| + 1 < end
            && ReadResult(l, m, a, u, tail, end, 0) == m
            && ReadResult(l, m, a, u, tail, end, |m| + 1) == w
            && ReadResult(l, m, a, u, tail, end, |m| + |w| + 1) == VersionFound(l, m, a, u, tail)
  {}

  /** The three reads of a request line, each from where `len` says. */
  lemma {:induction false} ThreeReads(b: seq<char>, l: nat, m: string, a: nat, u: string, tail: string, end: nat)
    requires m != "" && u != "" && a >= 1 && end > l + |m| + a + |u| + |tail|
    requires forall at | 0 <= at < end ::
               Terminated(b, at) && Word(CStr(b, at)) == ReadResult(l, m, a, u, tail, end, at)
    ensures LineTerminated(b) && MethodWord(b) == m && UrlWord(b) == UrlFound(l, m, u)
    ensures TreatyWord(b) == VersionFound(l, m, a, u, tail)
  {
    ThreeResults(l, m, a, u, tail, end);
    LineWords(b, m, UrlFound(l, m, u), VersionFound(l, m, a, u, tail));
  }

  /** What is read from a line whose words are spaced freely: always the method; the url if at
      most one space is before the method, and otherwise the end of the method. */
  lemma {:induction false} WordsOfSpacedLine(b: seq<char>, l: nat, m: string, a: nat, u: string, c: nat, tail: string)
    requires HoldsLine(b, l, m, a, u, c, tail)
    ensures LineTerminated(b) && MethodWord(b) == m && UrlWord(b) == UrlFound(l, m, u)
    ensures TreatyWord(b) == VersionFound(l, m, a, u, tail)
  {
    var end := l + |m| + a + |u| + c + |tail|;
    forall at | 0 <= at < end
      ensures Terminated(b, at) && Word(CStr(b, at)) == ReadResult(l, m, a, u, tail, end, at)
    {
      ReadFromLine(b, l, m, a, u, c, tail, at);
    }
    ThreeReads(b, l, m, a, u, tail, end);
  }

  /** The version is read if and only if no space is before the method and one after it. */
  lemma {:induction false} VersionNeedsOneSpace(b: seq<char>, l: nat, m: string, a: nat, u: string, c: nat, v: string)
    requires HoldsLine(b, l, m, a, u, c, v + "\n") && '\n' !in m && '\n' !in u
    ensures LineTerminated(b)
    ensures TreatyWord(b) == v + "\n" <==> l == 0 && a == 1
  {
    WordsOfSpacedLine(b, l, m, a, u, c, v + "\n");
    OnlyTightLines(l, m, a, u, v);
  }

  lemma {:induction false} LineWords(b: seq<char>, m: string, u: string, v: string)
    requires Terminated(b, 0) && Word(CStr(b, 0)) == m
    requires Terminated(b, |m| + 1) && Word(CStr(b, |m| + 1)) == u
    requires Terminated(b, |m| + |u| + 1) && Word(CStr(b, |m| + |u| + 1)) == v
    ensures LineTerminated(b) && MethodWord(b) == m && UrlWord(b) == u && TreatyWord(b) == v
  {}

  /** Parsing undoes printing "method SP url SP version LF" (RFC 7230, section 3.1.1). */
  lemma {:induction false} ParseUndoesPrinting(b: seq<char>, httpMethod: string, url: string, version: string)
    requires httpMethod != "" && url != "" && version != ""
    requires ' ' !in httpMethod && ' ' !in url && ' ' !in version
    requires NUL !in httpMethod && NUL !in url && NUL !in version
    requires httpMethod + " " + url + " " + version + "\n" + [NUL] <= b
    ensures LineTerminated(b)
    ensures MethodWord(b) == httpMethod && UrlWord(b) == url && TreatyWord(b) == version + "\n"
  {
    var tail := version + "\n";
    assert SpacedLine(0, httpMethod, 1, url, 1, tail) + [NUL]
        == httpMethod + " " + url + " " + version + "\n" + [NUL] by {
      assert Spaces(0) == "" && Spaces(1) == " ";
    }
    WordsOfSpacedLine(b, 0, httpMethod, 1, url, 1, tail);
  }

  /** Two spaces after the method: the version is read inside the url. */
  lemma {:induction false} TwoSpacesExample(b: seq<char>)
    requires "GET  /a V\n" + [NUL] <= b
    ensures LineTerminated(b) && UrlWord(b) == "/a" && TreatyWord(b) == "a"
  {
    assert SpacedLine(0, "GET", 2, "/a", 1, "V\n") == "GET  /a V\n";
    WordsOfSpacedLine(b, 0, "GET", 2, "/a", 1, "V\n");
  }

  /** One space before the method: so it is again. */
  lemma {:induction false} LeadingSpaceExample(b: seq<char>)
    requires " GET /a V\n" + [NUL] <= b
    ensures LineTerminated(b) && UrlWord(b) == "/a" && TreatyWord(b) == "a"
  {
    assert SpacedLine(1, "GET", 1, "/a", 1, "V\n") == " GET /a V\n";
    WordsOfSpacedLine(b, 1, "GET", 1, "/a", 1, "V\n");
  }

  /** Two spaces before the method: the url is read inside the method. */
  lemma {:induction false} LeadingSpacesExample(b: seq<char>)
    requires "  GET /a V\n" + [NUL] <= b
    ensures LineTerminated(b) && UrlWord(b) == "T" && TreatyWord(b) == "/a"
  {
    assert SpacedLine(2, "GET", 1, "/a", 1, "V\n") == "  GET /a V\n";
    WordsOfSpacedLine(b, 2, "GET", 1, "/a", 1, "V\n");
  }

  // ---------------------------------------------------------------------------
  // Path, query and the CGI flag
  // ---------------------------------------------------------------------------

  function UrlPart(httpMethod: string, url: string): string {
    if httpMethod == "GET" then url[..FirstOf(url, '?', 0)] else url
  }

  /** For a method other than GET the query is the whole url. */
  function QueryPart(httpMethod: string, url: string): string {
    if httpMethod != "GET" then url
    else
      var k := FirstOf(url, '?', 0);
      if k < |url| then url[k + 1..] else ""
  }

  predicate WantsCgi(httpMethod: string, url: string) {
    httpMethod == "POST" || (httpMethod == "GET" && '?' in url)
  }

  const ROOT: string := "htdocs"
  const INDEX: string := "index.html"

  function PathOf(urlPart: string): (path: string)
    ensures path != ""
  {
    var p := ROOT + urlPart;
    if p[|p| - 1] == '/' then p + INDEX else p
  }

  /** For GET the split loses nothing. */
  lemma {:induction false} SplitIsLossless(url: string)
    ensures var u, q, cgi := UrlPart("GET", url), QueryPart("GET", url), WantsCgi("GET", url);
            && '?' !in u
            && (cgi <==> '?' in url)
            && url == if cgi then u + "?" + q else u
  {
    var k := FirstOf(url, '?', 0);
    assert '?' in url <==> k < |url|;
    assert forall i | 0 <= i < k :: url[..k][i] == url[i];
  }

  /** The path is the url part below the root, and never ends in a slash. */
  lemma {:induction false} PathIsCompleted(urlPart: string)
    ensures var p := PathOf(urlPart);
            && p[|p| - 1] != '/'
            && p == ROOT + urlPart + if urlPart != "" && urlPart[|urlPart| - 1] == '/' then INDEX else ""
  {}

  /** The completed path and its NUL fit a buffer of `size` exactly when the url part leaves
      room for the root before it and, after a slash, for the index after it. */
  lemma {:induction false} PathFits(urlPart: string, size: nat)
    ensures |PathOf(urlPart)| < size <==>
              |urlPart| + 6 + (if urlPart != "" && urlPart[|urlPart| - 1] == '/' then 10 else 0) < size
  {
    PathIsCompleted(urlPart);
  }

  // ---------------------------------------------------------------------------
  // get_path_method_query
  // ---------------------------------------------------------------------------

  /** The buffers a request line is split into have room for what is put there. */
  predicate LineFitsBuffers(b: seq<char>, path: nat, meth: nat, url: nat, query: nat, treaty: nat) {
    && LineTerminated(b)
    && var m := MethodWord(b);
       var u := UrlWord(b);
       && |m| < meth && |u| < url && |TreatyWord(b)| < treaty
       && |QueryPart(m, u)| < query && |PathOf(UrlPart(m, u))| < path
  }

  /** A buffer that held zeros and `u`, its first '?' made a NUL if `split`. */
  function SplitBuffer(n: nat, u: string, split: bool): (b: seq<char>)
    requires |u| < n
    ensures |b| == n
  {
    var k := FirstOf(u, '?', 0);
    if split && k < |u| then Overlay(Zeros(n), u)[k := NUL] else Overlay(Zeros(n), u)
  }

  lemma {:induction false} StringsOfWhole(n: nat, u: string)
    requires |u| < n && NUL !in u
    ensures CStr(Overlay(Zeros(n), u), 0) == u && CStr(Overlay(Zeros(n), u), |u|) == ""
  {
    var b := Overlay(Zeros(n), u);
    assert b[|u|] == Zeros(n)[|u|];
    CStrOfPrinted(b, 0, u);
    CStrOfPrinted(b, |u|, "");
  }

  lemma {:induction false} StringsOfCut(n: nat, u: string, k: nat)
    requires k < |u| < n && NUL !in u
    ensures var b := Overlay(Zeros(n), u)[k := NUL];
            CStr(b, 0) == u[..k] && CStr(b, k + 1) == u[k + 1..]
  {
    var b := Overlay(Zeros(n), u)[k := NUL];
    assert b[|u|] == Zeros(n)[|u|];
    assert b[0..k] == u[..k] && b[k + 1..|u|] == u[k + 1..];
    assert forall i | 0 <= i < |u| :: u[i] in u;
    CStrOfPrinted(b, 0, u[..k]);
    CStrOfPrinted(b, k + 1, u[k + 1..]);
  }

  lemma {:induction false} StringsOfSplitBuffer(n: nat, u: string, split: bool)
    requires |u| < n && NUL !in u
    ensures var b := SplitBuffer(n, u, split); var k := FirstOf(u, '?', 0);
            && CStr(b, 0) == (if split then u[..k] else u)
            && (split && k < |u| ==> CStr(b, k + 1) == u[k + 1..])
            && (split && k == |u| ==> CStr(b, |u|) == "")
  {
    var k := FirstOf(u, '?', 0);
    if split && k < |u| {
      StringsOfCut(n, u, k);
    } else {
      StringsOfWhole(n, u);
      assert u[..|u|] == u;
    }
  }

  method ScanQuery(url: array<char>, ghost u: string) returns (cur: nat, split: bool)
    requires |u| < url.Length && NUL !in u && url[..] == SplitBuffer(url.Length, u, false)
    modifies url
    ensures url[..] == SplitBuffer(url.Length, u, true)
    ensures split <==> '?' in u
    ensures cur == if split then FirstOf(u, '?', 0) + 1 else |u|
  {
    ghost var k := FirstOf(u, '?', 0);
    assert forall i | 0 <= i < |u| :: url[i] == u[i] && u[i] in u;
    assert url[|u|] == NUL;
    cur := 0;
    while url[cur] != '?' && url[cur] != NUL
      invariant cur <= k
      decreases k - cur
    {
      cur := cur + 1;
    }
    assert cur == k;
    split := url[cur] == '?';
    if split {
      url[cur] := NUL;
      cur := cur + 1;
    }
  }

  /** Every buffer that `get_comm` fills comes in zeroed, since it writes no terminator. */
  method GetPathMethodQuery(buf: array<char>, cgi: int, path: array<char>, meth: array<char>,
                            url: array<char>, query: array<char>, treaty: array<char>)
    returns (cgi': int)
    requires buf !in {path, meth, url, query, treaty} && path !in {meth, url, query, treaty}
    requires meth !in {url, query, treaty} && url !in {query, treaty} && query != treaty
    requires meth[..] == Zeros(meth.Length) && url[..] == Zeros(url.Length)
    requires treaty[..] == Zeros(treaty.Length)
    requires LineFitsBuffers(buf[..], path.Length, meth.Length, url.Length, query.Length, treaty.Length)
    modifies path, meth, url, query, treaty
    ensures var m, u, v := MethodWord(buf[..]), UrlWord(buf[..]), TreatyWord(buf[..]);
            && meth[..] == Overlay(Zeros(meth.Length), m)
            && url[..] == SplitBuffer(url.Length, u, m == "GET")
            && treaty[..] == Overlay(Zeros(treaty.Length), v)
            && query[..] == Overlay(old(query[..]), QueryPart(m, u) + [NUL])
            && path[..] == Overlay(old(path[..]), PathOf(UrlPart(m, u)) + [NUL])
            && cgi' == if WantsCgi(m, u) then 1 else cgi
  {
    ghost var m, u := MethodWord(buf[..]), UrlWord(buf[..]);
    SplitWords(buf, meth, url, treaty);
    cgi' := cgi;
    if CStr(meth[..], 0) == "POST" {
      cgi' := 1;
    }
    var split := SplitUrl(CStr(meth[..], 0), url, query, path, u);
    if split {
      cgi' := 1;
    }
  }

  /** The url buffer is cut at its '?' for GET, then query and path are filled from it. */
  method SplitUrl(m: string, url: array<char>, query: array<char>, path: array<char>, ghost u: string)
    returns (split: bool)
    requires url !in {query, path} && query != path
    requires |u| < url.Length && NUL !in u && url[..] == Overlay(Zeros(url.Length), u)
    requires |QueryPart(m, u)| < query.Length && |PathOf(UrlPart(m, u))| < path.Length
    modifies url, query, path
    ensures url[..] == SplitBuffer(url.Length, u, m == "GET")
    ensures query[..] == Overlay(old(query[..]), QueryPart(m, u) + [NUL])
    ensures path[..] == Overlay(old(path[..]), PathOf(UrlPart(m, u)) + [NUL])
    ensures split <==> m == "GET" && '?' in u
  {
    var cur := 0;
    split := false;
    if m == "GET" {
      cur, split := ScanQuery(url, u);
    }
    assert CStr(url[..], cur) == QueryPart(m, u) && CStr(url[..], 0) == UrlPart(m, u) by {
      StringsOfSplitBuffer(url.Length, u, m == "GET");
    }
    SplitParts(m, u);
    CopyString(query, CStr(url[..], cur));
    BuildPath(path, CStr(url[..], 0));
  }

  lemma {:induction false} WordsAre(b: seq<char>, m: string, u: string, v: string)
    requires LineTerminated(b)
    requires m == MethodWord(b) && u == UrlWord(b) && v == TreatyWord(b)
    ensures Terminated(b, |m| + 1) && Terminated(b, |m| + |u| + 1)
    ensures m == Word(CStr(b, 0)) && u == Word(CStr(b, |m| + 1)) && v == Word(CStr(b, |m| + |u| + 1))
  {}

  /** The three words, each from where `len` says it starts. */
  method SplitWords(buf: array<char>, meth: array<char>, url: array<char>, treaty: array<char>)
    requires buf !in {meth, url, treaty} && meth !in {url, treaty} && url != treaty
    requires meth[..] == Zeros(meth.Length) && url[..] == Zeros(url.Length)
    requires treaty[..] == Zeros(treaty.Length)
    requires LineTerminated(buf[..])
    requires |MethodWord(buf[..])| < meth.Length && |UrlWord(buf[..])| < url.Length
    requires |TreatyWord(buf[..])| < treaty.Length
    modifies meth, url, treaty
    ensures meth[..] == Overlay(Zeros(meth.Length), MethodWord(buf[..]))
    ensures CStr(meth[..], 0) == MethodWord(buf[..])
    ensures url[..] == Overlay(Zeros(url.Length), UrlWord(buf[..])) && NUL !in UrlWord(buf[..])
    ensures treaty[..] == Overlay(Zeros(treaty.Length), TreatyWord(buf[..]))
  {
    ghost var b := buf[..];
    ghost var m, u, v := MethodWord(b), UrlWord(b), TreatyWord(b);
    WordsHaveNoNul(b);
    WordsAre(b, m, u, v);
    ReadWords(buf, meth, url, treaty, m, u, v);
    CStrOfOverlay(meth[..], m);
  }

  /** The three calls of `get_comm`; `m`, `u` and `v` name what they read. */
  method ReadWords(buf: array<char>, meth: array<char>, url: array<char>, treaty: array<char>,
                   ghost m: string, ghost u: string, ghost v: string)
    requires buf !in {meth, url, treaty} && meth !in {url, treaty} && url != treaty
    requires |m| <= meth.Length && |u| <= url.Length && |v| <= treaty.Length
    requires Terminated(buf[..], 0) && m == Word(CStr(buf[..], 0))
    requires Terminated(buf[..], |m| + 1) && u == Word(CStr(buf[..], |m| + 1))
    requires Terminated(buf[..], |m| + |u| + 1) && v == Word(CStr(buf[..], |m| + |u| + 1))
    modifies meth, url, treaty
    ensures meth[..] == Overlay(old(meth[..]), m)
    ensures url[..] == Overlay(old(url[..]), u)
    ensures treaty[..] == Overlay(old(treaty[..]), v)
  {
    ghost var b := buf[..];
    var len := GetComm(buf, 0, meth, m);
    assert buf[..] == b;
    var n := GetComm(buf, len + 1, url, u);
    assert buf[..] == b;
    len := len + n;
    n := GetComm(buf, len + 1, treaty, v);
  }

  lemma {:induction false} WordHasNoNul(b: seq<char>, at: nat)
    requires at <= |b|
    ensures NUL !in Word(CStr(b, at))
  {
    SkipSpacesIsSuffix(CStr(b, at));
  }

  lemma {:induction false} WordsHaveNoNul(b: seq<char>)
    requires Terminated(b, 0) && Terminated(b, UrlFrom(b))
    ensures NUL !in MethodWord(b) && NUL !in UrlWord(b)
  {
    WordHasNoNul(b, 0);
    WordHasNoNul(b, UrlFrom(b));
  }

  lemma {:induction false} SplitParts(m: string, u: string)
    requires NUL !in u
    ensures NUL !in QueryPart(m, u) && NUL !in PathOf(UrlPart(m, u))
  {}

  lemma {:induction false} SkipSpacesIsSuffix(t: string)
    requires NUL !in t
    ensures NUL !in SkipSpaces(t)
  {
    if t != [] && t[0] == ' ' {
      SkipSpacesIsSuffix(t[1..]);
    }
  }

  /** `sprintf(path, "htdocs%s", url)`, completed with "index.html" after a slash. */
  method BuildPath(path: array<char>, url: string)
    requires NUL !in url && |PathOf(url)| < path.Length
    modifies path
    ensures path[..] == Overlay(old(path[..]), PathOf(url) + [NUL])
  {
    var p := ROOT + url;
    CopyString(path, p);
    if path[|p| - 1] == '/' {
      CopyString(path, p + INDEX);
    }
  }
}
