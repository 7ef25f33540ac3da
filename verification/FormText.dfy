/** The form text `k1=name&k2=id` and its two parsers: `get_string` of the server, which
    copies, and `recv_str` of the CGI program, which splits its buffer in place. */
module FormText {
  import opened Wrappers
  import opened CStrings

  // A form text `q` is a C string: no NUL inside, one right after its last character.

  /** The character a pointer at index `i` reads; index |q| is the terminator, and there is
      nothing to read beyond it. */
  function CharAt(q: string, i: nat): char
    requires i <= |q|
  {
    if i == |q| then NUL else q[i]
  }

  function Min(a: nat, b: nat): nat {
    if a < b then a else b
  }

  /** One past the first '=' at or after `from`, or the terminator. */
  function PastEquals(q: string, from: nat): (p: nat)
    requires from <= |q|
    ensures from <= p <= |q|
  {
    Min(FirstOf(q, '=', from) + 1, |q|)
  }

  function NameStart(q: string): (p: nat)
    ensures p <= |q|
  {
    PastEquals(q, 0)
  }

  /** The first '&' of the value that follows the first '='. */
  function NameEnd(q: string): (p: nat)
    ensures NameStart(q) <= p <= |q|
  {
    FirstOf(q, '&', NameStart(q))
  }

  predicate HasSecondField(q: string) {
    NameEnd(q) < |q|
  }

  function NameOf(q: string): string {
    q[NameStart(q)..NameEnd(q)]
  }

  function IdOf(q: string): string {
    q[PastEquals(q, NameEnd(q))..]
  }

  lemma {:induction false} FieldsHaveNoNul(q: string)
    requires NUL !in q
    ensures NUL !in NameOf(q) && NUL !in IdOf(q)
  {}

  // ---------------------------------------------------------------------------
  // get_string
  // ---------------------------------------------------------------------------

  /** `while (*query++ != '=' && *query != '\0')`, from index `from`. */
  method ScanPastEquals(q: string, from: nat) returns (p: nat)
    requires NUL !in q && from < |q|
    ensures p == PastEquals(q, from)
  {
    p := from;
    var more := true;
    while more
      invariant from <= p <= |q|
      invariant more ==> p < |q| && forall i | from <= i < p :: q[i] != '='
      invariant !more ==> p == PastEquals(q, from)
      decreases |q| - p, more
    {
      var c := CharAt(q, p);
      p := p + 1;
      more := c != '=' && CharAt(q, p) != NUL;
      if !more {
        FirstOfIs(q, '=', from, if c == '=' then p - 1 else |q|);
      }
    }
  }

  /** What `get_string` leaves at the beginning of its copy: the name and its terminator,
      within the bytes that `memset` cleared or past them.  `memset` is given the size of a
      pointer, whatever the length of the copy. */
  function CopyImage(name: string, pointerSize: nat): seq<char> {
    name + if |name| + 1 < pointerSize then Zeros(pointerSize - |name|) else [NUL]
  }

  /** The loop that copies the name; `w` names what is copied. */
  method CopyName(q: string, from: nat, tmp: array<char>, ghost w: string) returns (query: nat, i: nat)
    requires from + |w| < |q| && q[from + |w|] == '&' && |w| < tmp.Length
    requires forall i | 0 <= i < |w| :: q[from + i] == w[i] && w[i] != '&' && w[i] != NUL
    modifies tmp
    ensures query == from + |w| && i == |w|
    ensures tmp[..] == Overlay(old(tmp[..]), w)
  {
    ghost var was := tmp[..];
    query, i := from, 0;
    while CharAt(q, query) != '&' && CharAt(q, query) != NUL
      invariant i <= |w| && query == from + i && (i < |w| ==> q[query] == w[i])
      invariant tmp[..] == Overlay(was, w[..i])
      decreases |w| - i
    {
      OverlayNext(was, w[..i], w[i]);
      assert w[..i] + [w[i]] == w[..i + 1];
      tmp[i] := CharAt(q, query);
      i, query := i + 1, query + 1;
    }
    assert w[..i] == w;
  }

  /** `tmp` is the memory from the copy's first byte on.  The code owns the first |q| + 1 bytes
      of it; it is longer here so that every byte the code writes shows.  `pointerSize` is
      sizeof(char *) of the platform. */
  method GetString(q: string, tmp: array<char>, pointerSize: nat) returns (name: string, id: string)
    requires NUL !in q
    requires HasSecondField(q)
    requires tmp.Length >= |q| + 1 && tmp.Length >= pointerSize
    modifies tmp
    ensures name == NameOf(q) && id == IdOf(q)
    ensures tmp[..] == Overlay(old(tmp[..]), CopyImage(NameOf(q), pointerSize))
  {
    ghost var was, w := tmp[..], NameOf(q);
    NameFacts(q, w);
    Clear(tmp, pointerSize);
    ghost var cleared := tmp[..];
    var query := ScanPastEquals(q, 0);
    var i;
    query, i := CopyName(q, query, tmp, w);
    OverlayNext(cleared, w, NUL);
    tmp[i] := NUL;
    CopyHoldsName(was, w, pointerSize);
    name := CStr(tmp[..], 0);
    query := ScanPastEquals(q, query);
    id := q[query..];
  }

  lemma {:induction false} NameFacts(q: string, w: string)
    requires NUL !in q && HasSecondField(q) && w == NameOf(q)
    ensures q != "" && NUL !in w && q[NameEnd(q)] == '&' && NameEnd(q) == NameStart(q) + |w| < |q|
    ensures forall k | 0 <= k < |w| :: q[NameStart(q) + k] == w[k] && w[k] != '&' && w[k] != NUL
  {
    FieldsHaveNoNul(q);
    assert forall k | 0 <= k < |w| :: w[k] in w;
  }

  lemma {:induction false} CopyHoldsName(was: seq<char>, w: string, pointerSize: nat)
    requires |w| < |was| && pointerSize <= |was| && NUL !in w
    ensures |CopyImage(w, pointerSize)| <= |was|
    ensures Overlay(Overlay(was, Zeros(pointerSize)), w + [NUL]) == Overlay(was, CopyImage(w, pointerSize))
    ensures CStr(Overlay(was, CopyImage(w, pointerSize)), 0) == w
  {
    var b := Overlay(Overlay(was, Zeros(pointerSize)), w + [NUL]);
    assert b == Overlay(was, CopyImage(w, pointerSize));
    CStrOfPrinted(b, 0, w);
  }

  /** The writes stay within the copy if and only if it is as long as a pointer: on a platform
      of four-byte pointers, for every text but "=&". */
  lemma {:induction false} WritesStayInCopy(q: string, pointerSize: nat)
    requires HasSecondField(q)
    ensures |CopyImage(NameOf(q), pointerSize)| <= |q| + 1 <==> |q| + 1 >= pointerSize
    ensures |CopyImage(NameOf(q), 4)| <= |q| + 1 <==> q != "=&"
  {
    assert q[FirstOf(q, '=', 0)] == '=' && q[NameEnd(q)] == '&';
    assert |q| < 3 ==> q == [q[0], q[1]];
  }

  /** The same scan, step by step, from a pointer to index `p`; None when it reads past the
      terminator. */
  function ScanOrOverrun(q: string, p: nat): Option<nat>
    decreases |q| + 1 - p
  {
    if p > |q| then None
    else if CharAt(q, p) == '=' then Some(p + 1)
    else if p + 1 > |q| then None
    else if CharAt(q, p + 1) == NUL then Some(p + 1)
    else ScanOrOverrun(q, p + 1)
  }

  lemma {:induction false} ScanStaysInside(q: string, p: nat)
    requires NUL !in q && p <= |q|
    ensures ScanOrOverrun(q, p) == if p < |q| then Some(PastEquals(q, p)) else None
    decreases |q| - p
  {
    if p + 1 < |q| {
      assert q[p + 1] in q;
      ScanStaysInside(q, p + 1);
    }
  }

  /** `get_string` stays within its text if and only if the text has an '&' with an '='
      somewhere before it; otherwise its third scan starts at the terminator. */
  lemma {:induction false} StaysInsideText(q: string)
    requires NUL !in q
    ensures HasSecondField(q) <==>
              ScanOrOverrun(q, 0).Some? && ScanOrOverrun(q, NameEnd(q)).Some?
    ensures HasSecondField(q) <==> exists i :: 0 <= i < |q| && q[i] == '&' && '=' in q[..i]
  {
    ScanStaysInside(q, 0);
    ScanStaysInside(q, NameEnd(q));
    var a := FirstOf(q, '=', 0);
    if HasSecondField(q) {
      var b := NameEnd(q);
      assert q[..b][a] == '=';
    }
    if i :| 0 <= i < |q| && q[i] == '&' && '=' in q[..i] {
      var e :| 0 <= e < i && q[..i][e] == '=';
      assert q[e] == '=' && a <= e;
      assert NameEnd(q) <= i;
    }
  }

  /** A text without a second field, whose third scan reads past the terminator, and two whose
      copies are too short for what is written to them, by the size of a pointer. */
  lemma {:induction false} OverrunExamples()
    ensures !HasSecondField("a=b") && ScanOrOverrun("a=b", NameEnd("a=b")) == None
    ensures HasSecondField("=&") && |CopyImage(NameOf("=&"), 4)| == 4 > |"=&"| + 1
    ensures HasSecondField("a=b&c") && |CopyImage(NameOf("a=b&c"), 8)| == 8 > |"a=b&c"| + 1
  {
    FirstOfIs("a=b", '=', 0, 1);
    FirstOfIs("a=b", '&', 2, 3);
    ScanStaysInside("a=b", 3);
    FirstOfIs("a=b&c", '=', 0, 1);
    FirstOfIs("a=b&c", '&', 2, 3);
    FirstOfIs("=&", '=', 0, 0);
    FirstOfIs("=&", '&', 1, 1);
  }

  function PrintForm(k1: string, name: string, k2: string, id: string): string {
    k1 + "=" + name + "&" + k2 + "=" + id
  }

  /** Reading undoes printing. */
  lemma {:induction false} GetStringUndoesPrinting(k1: string, name: string, k2: string, id: string)
    requires '=' !in k1 && '=' !in k2 && '&' !in name
    ensures var q := PrintForm(k1, name, k2, id);
            HasSecondField(q) && NameOf(q) == name && IdOf(q) == id
  {
    FormLayout(k1, name, k2, id);
    FieldsOfLayout(PrintForm(k1, name, k2, id), |k1|, |k1| + 1 + |name|, |k1| + |name| + |k2| + 2);
  }

  lemma {:induction false} FormLayout(k1: string, name: string, k2: string, id: string)
    ensures var q := PrintForm(k1, name, k2, id);
            var a := |k1|; var b := a + 1 + |name|; var c := b + 1 + |k2|;
            && c < |q|
            && q[..a] == k1 && q[a] == '=' && q[a + 1..b] == name
            && q[b] == '&' && q[b + 1..c] == k2 && q[c] == '=' && q[c + 1..] == id
  {}

  lemma {:induction false} FieldsOfLayout(q: string, a: nat, b: nat, c: nat)
    requires a < b < c < |q|
    requires q[a] == '=' && q[b] == '&' && q[c] == '='
    requires '=' !in q[..a] && '&' !in q[a + 1..b] && '=' !in q[b + 1..c]
    ensures NameStart(q) == a + 1 && NameEnd(q) == b
    ensures NameOf(q) == q[a + 1..b] && IdOf(q) == q[c + 1..]
  {
    assert forall i | 0 <= i < a :: q[i] == q[..a][i];
    FirstOfIs(q, '=', 0, a);
    assert forall i | a + 1 <= i < b :: q[i] == q[a + 1..b][i - a - 1];
    FirstOfIs(q, '&', a + 1, b);
    assert forall i | b + 1 <= i < c :: q[i] == q[b + 1..c][i - b - 1];
    FirstOfIs(q, '=', b, c);
  }

  // ---------------------------------------------------------------------------
  // recv_str
  // ---------------------------------------------------------------------------

  /** Where the scan stops: the second '=' or the terminator. */
  function ScanEnd(q: string): (p: nat)
    ensures p <= |q|
  {
    FirstOf(q, '=', NameStart(q))
  }

  function NamePointer(q: string): Option<nat> {
    if '=' in q then Some(NameStart(q)) else None
  }

  function IdPointer(q: string): Option<nat> {
    if '=' in q && ScanEnd(q) < |q| then Some(ScanEnd(q) + 1) else None
  }

  /** The text with every '&' before index `to` made a NUL. */
  function Blanked(q: string, to: nat): (r: seq<char>)
    requires to <= |q|
    ensures |r| == |q|
  {
    seq(|q|, i requires 0 <= i < |q| => if i < to && q[i] == '&' then NUL else q[i])
  }

  /** `a` is the first '=' of the text, and `d` the one after it; |q| stands for none. */
  predicate EqualsAt(q: string, a: nat, d: nat) {
    && a <= d <= |q| && (a == d ==> a == |q|)
    && (forall i | 0 <= i < |q| :: q[i] != NUL)
    && (forall i | 0 <= i < d :: q[i] == '=' <==> i == a)
    && (d < |q| ==> q[d] == '=')
  }

  lemma {:induction false} EqualsFound(q: string)
    requires NUL !in q
    ensures EqualsAt(q, FirstOf(q, '=', 0), ScanEnd(q))
    ensures '=' in q <==> FirstOf(q, '=', 0) < |q|
  {
    assert forall i | 0 <= i < |q| :: q[i] in q;
  }

  /** The loop of `recv_str`. */
  method SplitInPlace(str: array<char>, ghost q: string, ghost a: nat, ghost d: nat)
    returns (name: Option<nat>, id: Option<nat>)
    requires EqualsAt(q, a, d)
    requires |q| < str.Length && str[..|q|] == q && str[|q|] == NUL
    modifies str
    ensures name == if a < |q| then Some(a + 1) else None
    ensures id == if d < |q| then Some(d + 1) else None
    ensures str[..] == Blanked(q, d) + old(str[..])[|q|..]
  {
    ghost var was := str[..];
    assert forall j | 0 <= j < |q| :: str[j] == str[..|q|][j];
    var cur := 0;
    name, id := None, None;
    while str[cur] != NUL
      invariant cur <= d && id == None
      invariant if name == None then cur <= a else a < cur && name == Some(a + 1)
      invariant forall j | 0 <= j < |q| :: str[j] == if j < cur && q[j] == '&' then NUL else q[j]
      invariant str[|q|] == NUL && forall j | |q| <= j < str.Length :: str[j] == was[j]
      decreases |q| - cur
    {
      assert cur < |q|;
      if str[cur] == '=' && name == None {
        cur := cur + 1;
        name := Some(cur);
        continue;
      }
      if str[cur] == '&' {
        str[cur] := NUL;
      }
      if str[cur] == '=' && name != None {
        id := Some(cur + 1);
        break;
      }
      cur := cur + 1;
    }
    assert cur == d;
    assert str[..] == Blanked(q, d) + was[|q|..];
  }

  method RecvStr(str: array<char>) returns (name: Option<nat>, id: Option<nat>)
    requires Terminated(str[..], 0)
    modifies str
    ensures var q := old(CStr(str[..], 0));
            && name == NamePointer(q) && id == IdPointer(q)
            && str[..] == Blanked(q, ScanEnd(q)) + old(str[..])[|q|..]
  {
    ghost var q := CStr(str[..], 0);
    EqualsFound(q);
    name, id := SplitInPlace(str, q, FirstOf(q, '=', 0), ScanEnd(q));
  }

  /** The strings the two pointers denote once the buffer has been split. */
  function PointedAt(q: string, p: Option<nat>): Option<string>
    requires p.Some? ==> p.value <= |q|
  {
    if p == None then None else Some(CStr(Blanked(q, ScanEnd(q)) + [NUL], p.value))
  }

  predicate ParsersAgree(q: string) {
    && PointedAt(q, NamePointer(q)) == Some(NameOf(q))
    && PointedAt(q, IdPointer(q)) == Some(IdOf(q))
  }

  /** The two parsers extract the same name and id exactly from the texts whose first value
      ends at an '&' before any further '=', and which do have a second '='. */
  lemma {:induction false} WhenParsersAgree(q: string)
    requires NUL !in q && HasSecondField(q)
    ensures ParsersAgree(q) <==> '=' !in NameOf(q) && '=' in q[NameEnd(q)..]
  {
    var s, b, d := NameStart(q), NameEnd(q), ScanEnd(q);
    assert q[FirstOf(q, '=', 0)] == '=';
    assert '=' in NameOf(q) <==> d < b by {
      SecondEquals(q, s, b, d);
    }
    assert d >= b ==> ('=' in q[b..] <==> d < |q|) by {
      SecondEquals(q, s, b, d);
    }
    if d < b {
      LongerName(q);
    } else {
      SameName(q);
      if d < |q| {
        SameId(q);
      }
    }
  }

  /** Where the first '=' at or after `s` stands, seen from `b`. */
  lemma {:induction false} SecondEquals(q: string, s: nat, b: nat, d: nat)
    requires s <= b < |q| && s <= d <= |q| && q[b] != '='
    requires (forall i | s <= i < d :: q[i] != '=') && (d < |q| ==> q[d] == '=')
    ensures '=' in q[s..b] <==> d < b
    ensures d >= b ==> ('=' in q[b..] <==> d < |q|)
  {
    if d < b {
      assert q[s..b][d - s] == '=';
    } else if d < |q| {
      assert q[b..][d - b] == '=';
    }
  }

  /** A name with an '=' in it: `get_string` takes "b=c", `recv_str` the rest of the text. */
  lemma {:induction false} ParsersDisagreeExample()
    ensures HasSecondField("a=b=c&d=e") && !ParsersAgree("a=b=c&d=e")
    ensures NameOf("a=b=c&d=e") == "b=c"
  {
    var q := "a=b=c&d=e";
    FirstOfIs(q, '=', 0, 1);
    FirstOfIs(q, '&', 2, 5);
    assert NameOf(q) == "b=c" && "b=c"[1] == '=';
    WhenParsersAgree(q);
  }

  lemma {:induction false} LongerName(q: string)
    requires NUL !in q && HasSecondField(q) && ScanEnd(q) < NameEnd(q)
    ensures PointedAt(q, NamePointer(q)) != Some(NameOf(q))
  {
    var s, b := NameStart(q), NameEnd(q);
    var blanked := Blanked(q, ScanEnd(q)) + [NUL];
    var e := FirstOf(blanked, NUL, s);
    assert blanked[|q|] == NUL && blanked[e] == NUL;
    assert blanked[b] == q[b] == '&';
    assert |CStr(blanked, s)| == e - s && |NameOf(q)| == b - s;
  }

  lemma {:induction false} SameName(q: string)
    requires NUL !in q && HasSecondField(q) && NameEnd(q) < ScanEnd(q)
    ensures PointedAt(q, Some(NameStart(q))) == Some(NameOf(q))
  {
    var s, b := NameStart(q), NameEnd(q);
    var blanked := Blanked(q, ScanEnd(q)) + [NUL];
    assert forall i | s <= i < b :: blanked[i] == q[i] && q[i] in q;
    FirstOfIs(blanked, NUL, s, b);
    assert blanked[s..b] == NameOf(q);
  }

  lemma {:induction false} SameId(q: string)
    requires NUL !in q && HasSecondField(q) && NameEnd(q) < ScanEnd(q) < |q|
    ensures PointedAt(q, Some(ScanEnd(q) + 1)) == Some(IdOf(q))
  {
    var d, id := ScanEnd(q), IdOf(q);
    FieldsHaveNoNul(q);
    FirstOfIs(q, '=', NameEnd(q), d);
    IdInBlanked(q, d, id);
  }

  lemma {:induction false} IdInBlanked(q: string, d: nat, id: string)
    requires d < |q| && id == q[d + 1..] && NUL !in id
    ensures CStr(Blanked(q, d) + [NUL], d + 1) == id
  {
    var blanked := Blanked(q, d) + [NUL];
    assert blanked[d + 1..|q|] == id;
    CStrOfPrinted(blanked, d + 1, id);
  }

  /** Both recover the fields of a printed form whose name has neither '=' nor '&'. */
  lemma {:induction false} ParsersAgreeOnForms(k1: string, name: string, k2: string, id: string)
    requires '=' !in k1 && '=' !in k2 && '&' !in name && '=' !in name
    requires NUL !in PrintForm(k1, name, k2, id)
    ensures ParsersAgree(PrintForm(k1, name, k2, id))
    ensures NameOf(PrintForm(k1, name, k2, id)) == name && IdOf(PrintForm(k1, name, k2, id)) == id
  {
    var q, a := PrintForm(k1, name, k2, id), |k1|;
    var b := a + 1 + |name|;
    var c := b + 1 + |k2|;
    assert c < |q| && q[a] == '=' && q[b] == '&' && q[c] == '='
        && q[..a] == k1 && q[a + 1..b] == name && q[b + 1..c] == k2 && q[c + 1..] == id by {
      FormLayout(k1, name, k2, id);
    }
    AgreeOnLayout(q, a, b, c);
  }

  lemma {:induction false} AgreeOnLayout(q: string, a: nat, b: nat, c: nat)
    requires NUL !in q && a < b < c < |q| && q[a] == '=' && q[b] == '&' && q[c] == '='
    requires '=' !in q[..a] && '&' !in q[a + 1..b] && '=' !in q[a + 1..b] && '=' !in q[b + 1..c]
    ensures ParsersAgree(q) && NameOf(q) == q[a + 1..b] && IdOf(q) == q[c + 1..]
  {
    FieldsOfLayout(q, a, b, c);
    assert q[b..][c - b] == '=';
    WhenParsersAgree(q);
  }
}
