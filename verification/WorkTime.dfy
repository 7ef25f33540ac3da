/** A person's attendance record, the work time it accumulates, and how that is printed. */
module WorkTime {
  import opened Decimal
  import opened CStrings

  const MINUTE := 60
  const HOUR := 3600
  const DAY := 28800   // a working day has eight hours

  datatype UserNode = UserNode(
    name: string, id: string,
    arriveTime: string, leaveTime: string,
    sec: int, min: int, hour: int, data: int,
    startTime: int, endTime: int)

  /** The fields that an arrival sets, every other field as the constructor leaves it. */
  function Arrival(name: string, id: string, now: int, stamp: string): UserNode {
    UserNode(name, id, stamp, "", 0, 0, 0, 0, now, 0)
  }

  function Total(u: UserNode): int {
    u.sec + MINUTE * u.min + HOUR * u.hour + DAY * u.data
  }

  /** What the carry loop keeps on every record: a negative second count is never carried. */
  predicate Carried(u: UserNode) {
    u.sec < 60 && 0 <= u.min < 60 && 0 <= u.hour < 8 && 0 <= u.data
  }

  predicate Canonical(u: UserNode) {
    Carried(u) && 0 <= u.sec
  }

  /** A canonical record is the quotients and remainders of its total. */
  lemma {:induction false} CanonicalIsDivision(u: UserNode)
    requires Canonical(u)
    ensures u.data == Total(u) / DAY && u.hour == Total(u) % DAY / HOUR
    ensures u.min == Total(u) % HOUR / MINUTE && u.sec == Total(u) % MINUTE
  {
    MixedRadix(u.sec, u.min, u.hour, u.data);
  }

  lemma {:induction false} MixedRadix(s: int, m: int, h: int, d: int)
    requires 0 <= s < 60 && 0 <= m < 60 && 0 <= h < 8
    ensures var t := s + MINUTE * m + HOUR * h + DAY * d;
            t / DAY == d && t % DAY / HOUR == h && t % HOUR / MINUTE == m && t % MINUTE == s
  {
    ByMinute(s, m);
    ByMinute(s, m + 60 * h + 480 * d);
    ByHour(s + MINUTE * m, h);
    ByHour(s + MINUTE * m, h + 8 * d);
    ByDay(s + MINUTE * m + HOUR * h, d);
  }

  lemma {:induction false} ByMinute(r: int, q: int)
    requires 0 <= r < MINUTE
    ensures (r + MINUTE * q) % MINUTE == r && (r + MINUTE * q) / MINUTE == q
  {}

  lemma {:induction false} ByHour(r: int, q: int)
    requires 0 <= r < HOUR
    ensures (r + HOUR * q) % HOUR == r && (r + HOUR * q) / HOUR == q
  {}

  lemma {:induction false} ByDay(r: int, q: int)
    requires 0 <= r < DAY
    ensures (r + DAY * q) % DAY == r && (r + DAY * q) / DAY == q
  {}

  /** The record with its seconds set to `s`, carried by plain division and remainder. */
  function Divided(u: UserNode, s: int): UserNode {
    var t := Total(u.(sec := s));
    if s < 60 then u.(sec := s)
    else u.(sec := t % MINUTE, min := t % HOUR / MINUTE, hour := t % DAY / HOUR, data := t / DAY)
  }

  function Elapsed(u: UserNode): int {
    u.endTime - u.startTime
  }

  function Worked(u: UserNode): UserNode {
    Divided(u, u.sec + Elapsed(u))
  }

  /** Accounting for the elapsed time, even a negative one, keeps the total honest; the
      record is canonical afterwards if and only if its seconds did not drop below zero. */
  lemma {:induction false} WorkedIsHonest(u: UserNode)
    requires Carried(u)
    ensures Total(Worked(u)) == Total(u) + Elapsed(u)
    ensures Carried(Worked(u))
    ensures Canonical(Worked(u)) <==> u.sec + Elapsed(u) >= 0
  {
    var s := u.sec + Elapsed(u);
    if s >= 60 {
      DivisionIsCanonical(Total(u.(sec := s)), u);
    }
  }

  /** Seconds `s` after carrying: what stays below a minute stays as it is. */
  function CarriedSeconds(s: int): int {
    if s < 60 then s else s % 60
  }

  lemma {:induction false} WorkedSeconds(u: UserNode)
    requires Carried(u)
    ensures Worked(u).sec == CarriedSeconds(u.sec + Elapsed(u))
  {
    var s := u.sec + Elapsed(u);
    var q := s / 60 + u.min + 60 * u.hour + 480 * u.data;
    assert Total(u.(sec := s)) == s % 60 + MINUTE * q;
    ByMinute(s % 60, q);
  }

  lemma {:induction false} DivisionIsCanonical(t: nat, u: UserNode)
    ensures var r := u.(sec := t % MINUTE, min := t % HOUR / MINUTE, hour := t % DAY / HOUR, data := t / DAY);
            Canonical(r) && Total(r) == t
  {
    var x := t % DAY;
    var r := x % HOUR;
    MixedRadix(r % MINUTE, r / MINUTE, x / HOUR, t / DAY);
  }

  // ---------------------------------------------------------------------------
  // The printed duration
  // ---------------------------------------------------------------------------

  predicate FieldsFitInt(u: UserNode) {
    FitsInt(u.data) && FitsInt(u.hour) && FitsInt(u.min) && FitsInt(u.sec)
  }

  function Duration(u: UserNode): string {
    Print(u.data) + ":" + Print(u.hour) + ":" + Print(u.min) + ":" + Print(u.sec)
  }

  function AfterColon(t: string): string {
    var k := FirstOf(t, ':', 0);
    if k < |t| then t[k + 1..] else []
  }

  /** The four numbers of a duration text. */
  function ReadDuration(t: string): (int, int, int, int) {
    var t1 := AfterColon(t);
    var t2 := AfterColon(t1);
    (Atoi(t), Atoi(t1), Atoi(t2), Atoi(AfterColon(t2)))
  }

  lemma {:induction false} AfterFirstColon(p: string, rest: string)
    requires ':' !in p
    ensures AfterColon(p + (":" + rest)) == rest
  {
    var t := p + (":" + rest);
    assert forall i | 0 <= i < |p| :: t[i] == p[i] && p[i] in p;
    FirstOfIs(t, ':', 0, |p|);
  }

  lemma {:induction false} NextField(n: int, rest: string)
    ensures Atoi(Print(n) + (":" + rest)) == n
    ensures AfterColon(Print(n) + (":" + rest)) == rest
  {
    AtoiOfPrinted(n, ":" + rest);
    assert ':' !in Print(n) by {
      PrintedChars(n);
    }
    AfterFirstColon(Print(n), rest);
  }

  lemma {:induction false} FourFields(a: string, b: string, c: string, d: string)
    ensures a + ":" + b + ":" + c + ":" + d == a + (":" + (b + (":" + (c + (":" + d)))))
  {}

  /** Printing a duration loses nothing. */
  lemma {:induction false} ReadUndoesDuration(u: UserNode)
    ensures ReadDuration(Duration(u)) == (u.data, u.hour, u.min, u.sec)
  {
    var t3 := Print(u.sec);
    var t2 := Print(u.min) + (":" + t3);
    var t1 := Print(u.hour) + (":" + t2);
    FourFields(Print(u.data), Print(u.hour), Print(u.min), t3);
    NextField(u.data, t1);
    NextField(u.hour, t2);
    NextField(u.min, t3);
    LastField(u.sec);
  }

  /** The parts of a text between the occurrences of `c`. */
  function Split(t: string, c: char): seq<string>
    decreases |t|
  {
    var k := FirstOf(t, c, 0);
    if k == |t| then [t] else [t[..k]] + Split(t[k + 1..], c)
  }

  lemma {:induction false} SplitPart(p: string, rest: string)
    requires ':' !in p
    ensures Split(p + (":" + rest), ':') == [p] + Split(rest, ':')
    ensures Split(p, ':') == [p]
  {
    var t := p + (":" + rest);
    assert forall i | 0 <= i < |p| :: t[i] == p[i] && p[i] in p;
    FirstOfIs(t, ':', 0, |p|);
    FirstOfIs(p, ':', 0, |p|);
    assert t[..|p|] == p && t[|p| + 1..] == rest;
  }

  lemma {:induction false} NoColonInPrint(n: int)
    ensures ':' !in Print(n)
  {
    PrintedChars(n);
  }

  /** The duration is four decimals with a colon between them, in this order, and nothing else. */
  lemma {:induction false} DurationIsFourDecimals(u: UserNode)
    ensures Split(Duration(u), ':') == [Print(u.data), Print(u.hour), Print(u.min), Print(u.sec)]
  {
    NoColonInPrint(u.data);
    NoColonInPrint(u.hour);
    NoColonInPrint(u.min);
    NoColonInPrint(u.sec);
    FourParts(Print(u.data), Print(u.hour), Print(u.min), Print(u.sec));
  }

  lemma {:induction false} FourParts(a: string, b: string, c: string, d: string)
    requires ':' !in a && ':' !in b && ':' !in c && ':' !in d
    ensures Split(a + ":" + b + ":" + c + ":" + d, ':') == [a, b, c, d]
  {
    FourFields(a, b, c, d);
    ThreeParts(b, c, d);
    SplitPart(a, b + (":" + (c + (":" + d))));
  }

  lemma {:induction false} ThreeParts(b: string, c: string, d: string)
    requires ':' !in b && ':' !in c && ':' !in d
    ensures Split(b + (":" + (c + (":" + d))), ':') == [b, c, d]
  {
    TwoParts(c, d);
    SplitPart(b, c + (":" + d));
  }

  lemma {:induction false} TwoParts(c: string, d: string)
    requires ':' !in c && ':' !in d
    ensures Split(c + (":" + d), ':') == [c, d]
  {
    SplitPart(d, "");
    SplitPart(c, d);
  }

  lemma {:induction false} LastField(n: int)
    ensures Atoi(Print(n)) == n
  {
    AtoiOfPrint("", n, "");
    assert "" + Print(n) + "" == Print(n);
  }

  /** Canonical durations print equally exactly when they are the same amount of time. */
  lemma {:induction false} DurationsAreFaithful(u: UserNode, w: UserNode)
    requires Canonical(u) && Canonical(w)
    ensures Duration(u) == Duration(w) <==> Total(u) == Total(w)
  {
    ReadUndoesDuration(u);
    ReadUndoesDuration(w);
    CanonicalIsDivision(u);
    CanonicalIsDivision(w);
  }
}
