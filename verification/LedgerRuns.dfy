/** Whole runs of submissions from an empty ledger. */
module LedgerRuns {
  import opened CStrings
  import opened Decimal
  import opened WorkTime
  import opened Ledger

  predicate Is(s: Submission, name: string, id: string) {
    s.name == name && s.id == id
  }

  /** The submissions of one person, in order. */
  function Visits(subs: seq<Submission>, name: string, id: string): (r: seq<Submission>)
    ensures forall i | 0 <= i < |r| :: Is(r[i], name, id)
  {
    if subs == [] then []
    else
      var last := subs[|subs| - 1];
      Visits(subs[..|subs| - 1], name, id) + if Is(last, name, id) then [last] else []
  }

  /** When the person is first submitted; the length of the run when never. */
  function FirstVisit(subs: seq<Submission>, name: string, id: string): (f: nat)
    ensures f <= |subs|
    ensures f < |subs| ==> Is(subs[f], name, id)
    ensures forall i | 0 <= i < f :: !Is(subs[i], name, id)
  {
    if subs == [] || Is(subs[0], name, id) then 0 else 1 + FirstVisit(subs[1..], name, id)
  }

  /** The time between `start` and each of the visits, added up. */
  function TimeSince(start: int, visits: seq<Submission>): int {
    if visits == [] then 0
    else TimeSince(start, visits[..|visits| - 1]) + visits[|visits| - 1].now - start
  }

  /** The seconds that are left after carrying at each of the later visits. */
  function Seconds(visits: seq<Submission>): int {
    if |visits| <= 1 then 0
    else
      var last := |visits| - 1;
      CarriedSeconds(Seconds(visits[..last]) + (visits[last].now - visits[0].now))
  }

  predicate NeverBeforeFirst(visits: seq<Submission>) {
    forall i | 0 <= i < |visits| :: visits[0].now <= visits[i].now
  }

  /** What a person's record says about that person's visits. */
  ghost predicate Reflects(u: UserNode, visits: seq<Submission>) {
    && visits != []
    && u.name == visits[0].name && u.id == visits[0].id
    && u.arriveTime == visits[0].stamp && u.startTime == visits[0].now
    && (if |visits| == 1 then u.leaveTime == "" && u.endTime == 0
        else u.leaveTime == visits[|visits| - 1].stamp && u.endTime == visits[|visits| - 1].now)
    && Carried(u)
    && Total(u) == TimeSince(visits[0].now, visits)
    && u.sec == Seconds(visits)
  }

  ghost predicate RecordOf(u: UserNode, subs: seq<Submission>) {
    && NUL !in u.name && NUL !in u.id
    && FirstVisit(subs, u.name, u.id) < |subs|
    && Reflects(u, Visits(subs, u.name, u.id))
  }

  ghost predicate AllReflect(v: seq<UserNode>, subs: seq<Submission>) {
    forall k {:trigger RecordOf(v[k], subs)} | 0 <= k < |v| :: RecordOf(v[k], subs)
  }

  predicate Found(v: seq<UserNode>, s: Submission) {
    Find(v, s.name, s.id) < |v|
  }

  predicate AllFound(v: seq<UserNode>, subs: seq<Submission>) {
    forall i {:trigger Found(v, subs[i])} | 0 <= i < |subs| :: Found(v, subs[i])
  }

  predicate InOrder(v: seq<UserNode>, subs: seq<Submission>) {
    forall j, k {:trigger FirstVisit(subs, v[j].name, v[j].id), FirstVisit(subs, v[k].name, v[k].id)}
      | 0 <= j < k < |v| ::
      FirstVisit(subs, v[j].name, v[j].id) < FirstVisit(subs, v[k].name, v[k].id)
  }

  ghost predicate IsLedgerOf(v: seq<UserNode>, subs: seq<Submission>) {
    AllReflect(v, subs) && AllFound(v, subs) && InOrder(v, subs)
  }

  lemma {:induction false} CStrOfClean(t: string)
    requires NUL !in t
    ensures CStr(t, 0) == t
  {
    FirstOfIs(t, NUL, 0, |t|);
  }

  lemma {:induction false} MatchIsEquality(u: UserNode, name: string, id: string)
    requires NUL !in u.name && NUL !in u.id && NUL !in name && NUL !in id
    ensures Matches(u, name, id) <==> u.name == name && u.id == id
  {
    CStrOfClean(u.name);
    CStrOfClean(u.id);
    CStrOfClean(name);
    CStrOfClean(id);
  }

  lemma {:induction false} FirstVisitOfExtended(subs: seq<Submission>, s: Submission, name: string, id: string)
    ensures var f := FirstVisit(subs, name, id);
            FirstVisit(subs + [s], name, id) == if f < |subs| || Is(s, name, id) then f else |subs| + 1
  {
    if subs == [] {
      assert (subs + [s])[1..] == [];
    } else if !Is(subs[0], name, id) {
      assert (subs + [s])[1..] == subs[1..] + [s];
      FirstVisitOfExtended(subs[1..], s, name, id);
    }
  }

  lemma {:induction false} VisitsOfExtended(subs: seq<Submission>, s: Submission, name: string, id: string)
    ensures var r := Visits(subs, name, id);
            Visits(subs + [s], name, id) == if Is(s, name, id) then r + [s] else r
  {
    assert (subs + [s])[..|subs|] == subs;
  }

  lemma {:induction false} NoVisits(subs: seq<Submission>, name: string, id: string)
    requires forall i | 0 <= i < |subs| :: !Is(subs[i], name, id)
    ensures Visits(subs, name, id) == []
  {
    if subs != [] {
      NoVisits(subs[..|subs| - 1], name, id);
    }
  }

  /** One more visit of a known person. */
  lemma {:induction false} DepartureReflects(u: UserNode, visits: seq<Submission>, s: Submission)
    requires Reflects(u, visits)
    ensures Reflects(Departed(u, s), visits + [s])
  {
    var more := visits + [s];
    var w := u.(endTime := s.now, leaveTime := s.stamp);
    assert more[..|visits|] == visits && more[0] == visits[0];
    assert Total(w) == Total(u) && Elapsed(w) == s.now - visits[0].now;
    WorkedIsHonest(w);
    WorkedSeconds(w);
  }

  lemma {:induction false} ArrivalReflects(s: Submission)
    ensures Reflects(Arrival(s.name, s.id, s.now, s.stamp), [s])
  {
    assert TimeSince(s.now, [s]) == TimeSince(s.now, [s][..0]) + s.now - s.now;
  }

  /** A clock that never runs behind the first visit leaves no negative seconds. */
  lemma {:induction false} SecondsNeverNegative(visits: seq<Submission>)
    requires NeverBeforeFirst(visits)
    ensures 0 <= Seconds(visits) < 60
  {
    if |visits| > 1 {
      SecondsNeverNegative(visits[..|visits| - 1]);
    }
  }

  lemma {:induction false} FindSameKeys(v: seq<UserNode>, w: seq<UserNode>, name: string, id: string)
    requires |v| <= |w|
    requires forall i | 0 <= i < |v| :: v[i].name == w[i].name && v[i].id == w[i].id
    ensures Find(v, name, id) < |v| ==> Find(w, name, id) == Find(v, name, id)
  {
    if v != [] && !Matches(v[0], name, id) {
      FindSameKeys(v[1..], w[1..], name, id);
    }
  }

  /** The record that is looked up is the only one of its person. */
  lemma {:induction false} FoundKey(v: seq<UserNode>, subs: seq<Submission>, s: Submission, j: nat)
    requires AllReflect(v, subs) && InOrder(v, subs) && Clean(s) && j < |v|
    ensures Is(s, v[j].name, v[j].id) <==> j == Find(v, s.name, s.id)
  {
    var k := Find(v, s.name, s.id);
    assert RecordOf(v[j], subs);
    MatchIsEquality(v[j], s.name, s.id);
    if k < |v| {
      assert RecordOf(v[k], subs);
      MatchIsEquality(v[k], s.name, s.id);
    }
  }

  lemma {:induction false} RecordUntouched(u: UserNode, subs: seq<Submission>, s: Submission)
    requires RecordOf(u, subs) && !Is(s, u.name, u.id)
    ensures RecordOf(u, subs + [s])
    ensures FirstVisit(subs + [s], u.name, u.id) == FirstVisit(subs, u.name, u.id)
  {
    FirstVisitOfExtended(subs, s, u.name, u.id);
    VisitsOfExtended(subs, s, u.name, u.id);
  }

  lemma {:induction false} RecordDeparted(u: UserNode, subs: seq<Submission>, s: Submission)
    requires RecordOf(u, subs) && Is(s, u.name, u.id)
    ensures Departed(u, s).name == u.name && Departed(u, s).id == u.id
    ensures RecordOf(Departed(u, s), subs + [s])
    ensures FirstVisit(subs + [s], u.name, u.id) == FirstVisit(subs, u.name, u.id)
  {
    FirstVisitOfExtended(subs, s, u.name, u.id);
    VisitsOfExtended(subs, s, u.name, u.id);
    DepartureReflects(u, Visits(subs, u.name, u.id), s);
  }

  lemma {:induction false} RecordArrived(subs: seq<Submission>, s: Submission)
    requires Clean(s) && forall i | 0 <= i < |subs| :: !Is(subs[i], s.name, s.id)
    ensures RecordOf(Arrival(s.name, s.id, s.now, s.stamp), subs + [s])
    ensures FirstVisit(subs + [s], s.name, s.id) == |subs|
  {
    FirstVisitOfExtended(subs, s, s.name, s.id);
    VisitsOfExtended(subs, s, s.name, s.id);
    NoVisits(subs, s.name, s.id);
    ArrivalReflects(s);
  }

  /** A submission keeps every record, those of others as they are. */
  lemma {:induction false} RecordKept(v: seq<UserNode>, subs: seq<Submission>, s: Submission, j: nat)
    requires AllReflect(v, subs) && InOrder(v, subs) && Clean(s) && j < |v|
    ensures var w := Submit(v, s);
            && j < |w| && w[j].name == v[j].name && w[j].id == v[j].id
            && RecordOf(w[j], subs + [s])
            && FirstVisit(subs + [s], w[j].name, w[j].id) == FirstVisit(subs, v[j].name, v[j].id)
  {
    FoundKey(v, subs, s, j);
    assert RecordOf(v[j], subs);
    if Is(s, v[j].name, v[j].id) {
      RecordDeparted(v[j], subs, s);
    } else {
      RecordUntouched(v[j], subs, s);
    }
  }

  lemma {:induction false} NewPerson(v: seq<UserNode>, subs: seq<Submission>, s: Submission)
    requires AllFound(v, subs) && Clean(s) && Find(v, s.name, s.id) == |v|
    ensures var w := Submit(v, s);
            && |w| == |v| + 1 && RecordOf(w[|v|], subs + [s])
            && FirstVisit(subs + [s], w[|v|].name, w[|v|].id) == |subs|
  {
    forall i | 0 <= i < |subs|
      ensures !Is(subs[i], s.name, s.id)
    {
      assert Found(v, subs[i]);
    }
    RecordArrived(subs, s);
  }

  lemma {:induction false} StillFound(v: seq<UserNode>, subs: seq<Submission>, s: Submission)
    requires AllReflect(v, subs) && AllFound(v, subs) && InOrder(v, subs) && Clean(s)
    ensures AllFound(Submit(v, s), subs + [s])
  {
    var w, more := Submit(v, s), subs + [s];
    forall j | 0 <= j < |v|
      ensures w[j].name == v[j].name && w[j].id == v[j].id
    {
      RecordKept(v, subs, s, j);
    }
    forall i | 0 <= i < |more|
      ensures Found(w, more[i])
    {
      FindSameKeys(v, w, more[i].name, more[i].id);
      if i < |subs| {
        assert more[i] == subs[i] && Found(v, subs[i]);
      } else if Find(v, s.name, s.id) == |v| {
        FindAppended(v, w[|v|], s);
      }
    }
  }

  lemma {:induction false} FindAppended(v: seq<UserNode>, u: UserNode, s: Submission)
    requires Matches(u, s.name, s.id)
    ensures Find(v + [u], s.name, s.id) <= |v|
  {
    if v == [] {
      assert v + [u] == [u];
    } else if !Matches(v[0], s.name, s.id) {
      assert (v + [u])[1..] == v[1..] + [u];
      FindAppended(v[1..], u, s);
    }
  }

  lemma {:induction false} SubmitKeepsLedger(v: seq<UserNode>, subs: seq<Submission>, s: Submission)
    requires IsLedgerOf(v, subs) && Clean(s)
    ensures IsLedgerOf(Submit(v, s), subs + [s])
  {
    var w := Submit(v, s);
    StillFound(v, subs, s);
    forall j | 0 <= j < |v|
      ensures RecordOf(w[j], subs + [s])
      ensures FirstVisit(subs + [s], w[j].name, w[j].id) == FirstVisit(subs, v[j].name, v[j].id) < |subs|
    {
      assert RecordOf(v[j], subs);
      RecordKept(v, subs, s, j);
    }
    if |w| > |v| {
      NewPerson(v, subs, s);
    }
    StillInOrder(v, w, subs, subs + [s]);
  }

  /** First visits that stay as they are, and one after all of them, stay in order. */
  lemma {:induction false} StillInOrder(v: seq<UserNode>, w: seq<UserNode>, subs: seq<Submission>, all: seq<Submission>)
    requires InOrder(v, subs) && |v| <= |w| <= |v| + 1
    requires forall j | 0 <= j < |v| ::
               FirstVisit(all, w[j].name, w[j].id) == FirstVisit(subs, v[j].name, v[j].id) < |subs|
    requires |w| > |v| ==> FirstVisit(all, w[|v|].name, w[|v|].id) == |subs|
    ensures InOrder(w, all)
  {}

  /** Over any run from the empty ledger: each record reflects exactly the visits of its
      person, everyone submitted is found, and the records are in order of first visit. */
  lemma {:induction false} RunIsLedger(subs: seq<Submission>)
    requires AllClean(subs)
    ensures IsLedgerOf(Run(subs), subs)
  {
    if subs != [] {
      var before, s := subs[..|subs| - 1], subs[|subs| - 1];
      RunIsLedger(before);
      SubmitKeepsLedger(Run(before), before, s);
      assert before + [s] == subs;
    }
  }

  /** The stored keys: no person twice, and exactly the submitted ones; the record that is
      looked up is the only one that matches. */
  lemma {:induction false} KeysOfRun(subs: seq<Submission>, name: string, id: string)
    requires AllClean(subs) && NUL !in name && NUL !in id
    ensures var v := Run(subs); var k := Find(v, name, id);
            && (k < |v| <==> exists i :: 0 <= i < |subs| && Is(subs[i], name, id))
            && (forall j | 0 <= j < |v| :: v[j].name == name && v[j].id == id <==> j == k)
            && (k < |v| ==> Reflects(v[k], Visits(subs, name, id)))
  {
    var v := Run(subs);
    var k := Find(v, name, id);
    RunIsLedger(subs);
    forall j | 0 <= j < |v|
      ensures v[j].name == name && v[j].id == id <==> j == k
    {
      FoundKey(v, subs, Submission(name, id, 0, ""), j);
    }
    if k < |v| {
      assert RecordOf(v[k], subs);
      assert Is(subs[FirstVisit(subs, name, id)], name, id);
    }
    forall i | 0 <= i < |subs| && Is(subs[i], name, id)
      ensures k < |v|
    {
      assert Found(v, subs[i]);
    }
  }

  /** The time added up by the first `i` visits, in whole minutes. */
  function MinutesAfter(visits: seq<Submission>, i: nat): int
    requires i <= |visits|
  {
    if i == 0 then 0 else TimeSince(visits[0].now, visits[..i]) / 60
  }

  /** The most whole minutes that were ever reached. */
  function MostMinutes(visits: seq<Submission>): (m: int)
    ensures m >= 0 && m >= MinutesAfter(visits, |visits|)
  {
    if visits == [] then 0
    else
      var before, all := MostMinutes(visits[..|visits| - 1]), MinutesAfter(visits, |visits|);
      if before < all then all else before
  }

  lemma {:induction false} MostMinutesIsMaximum(visits: seq<Submission>)
    ensures forall i | 0 <= i <= |visits| :: MinutesAfter(visits, i) <= MostMinutes(visits)
    ensures exists i :: 0 <= i <= |visits| && MinutesAfter(visits, i) == MostMinutes(visits)
  {
    if visits == [] {
      assert MinutesAfter(visits, 0) == MostMinutes(visits);
    } else {
      var n := |visits|;
      var before := visits[..n - 1];
      MostMinutesIsMaximum(before);
      forall i | 0 <= i < n
        ensures MinutesAfter(visits, i) == MinutesAfter(before, i)
      {
        assert visits[..i] == before[..i];
      }
      var k :| 0 <= k <= n - 1 && MinutesAfter(before, k) == MostMinutes(before);
      var i := if MostMinutes(visits) == MostMinutes(before) then k else n;
      assert MinutesAfter(visits, i) == MostMinutes(visits);
    }
  }

  /** Carrying takes off every minute once: the seconds are the time added up, less the most
      whole minutes that were ever reached. */
  lemma {:induction false} SecondsAreRest(visits: seq<Submission>)
    requires visits != []
    ensures Seconds(visits) == TimeSince(visits[0].now, visits) - 60 * MostMinutes(visits)
    decreases |visits|
  {
    var n := |visits|;
    var before := visits[..n - 1];
    assert visits[..n] == visits;
    if n == 1 {
      assert TimeSince(visits[0].now, visits) == TimeSince(visits[0].now, before);
    } else {
      SecondsAreRest(before);
      var s := Seconds(before) + (visits[n - 1].now - visits[0].now);
      assert TimeSince(visits[0].now, visits) == s + 60 * MostMinutes(before);
    }
  }

  predicate NoMinuteLost(visits: seq<Submission>) {
    forall i | 0 <= i <= |visits| :: MinutesAfter(visits, i) <= MinutesAfter(visits, |visits|)
  }

  /** So they are not negative exactly when the time added up has not fallen below a whole
      minute that it once reached. */
  lemma {:induction false} SecondsNotNegative(visits: seq<Submission>)
    ensures Seconds(visits) >= 0 <==> NoMinuteLost(visits)
  {
    if visits != [] {
      SecondsAreRest(visits);
      MostMinutesIsMaximum(visits);
      assert visits[..|visits|] == visits;
      var i :| 0 <= i <= |visits| && MinutesAfter(visits, i) == MostMinutes(visits);
    }
  }

  lemma {:induction false} CanonicalRecord(u: UserNode, visits: seq<Submission>)
    requires Reflects(u, visits)
    ensures Canonical(u) <==> NoMinuteLost(visits)
    ensures NeverBeforeFirst(visits) ==> Canonical(u)
  {
    SecondsNotNegative(visits);
    if NeverBeforeFirst(visits) {
      SecondsNeverNegative(visits);
    }
  }

  /** Over any run, a person's record is canonical if and only if the time added up by that
      person's visits has not fallen below a whole minute that it once reached; a clock that
      never runs behind the first visit suffices. */
  lemma {:induction false} CanonicalInRun(subs: seq<Submission>, name: string, id: string)
    requires AllClean(subs) && NUL !in name && NUL !in id
    requires exists i :: 0 <= i < |subs| && Is(subs[i], name, id)
    ensures var v := Run(subs); var k := Find(v, name, id); var visits := Visits(subs, name, id);
            && k < |v|
            && (Canonical(v[k]) <==> NoMinuteLost(visits))
            && (NeverBeforeFirst(visits) ==> Canonical(v[k]))
  {
    KeysOfRun(subs, name, id);
    CanonicalRecord(Run(subs)[Find(Run(subs), name, id)], Visits(subs, name, id));
  }

  /** The line that a person's next visit composes: name, id, first arrival, this departure, and
      the time added up, in days of eight hours, hours, minutes and the seconds that are left
      of the most whole minutes reached.  None on the first visit. */
  function VisitLine(visits: seq<Submission>, s: Submission): string {
    if visits == [] then ""
    else
      var all := visits + [s];
      var q, t := MostMinutes(all), TimeSince(visits[0].now, all);
      s.name + " " + s.id + " " + visits[0].stamp + " " + s.stamp + " " +
      Print(q / 480) + ":" + Print(q % 480 / 60) + ":" + Print(q % 60) + ":" + Print(t - 60 * q)
  }

  /** Over any run, that is the line which the next submission composes. */
  lemma {:induction false} LineOfVisit(subs: seq<Submission>, s: Submission)
    requires AllClean(subs) && Clean(s)
    ensures LineFor(Run(subs), s) == VisitLine(Visits(subs, s.name, s.id), s)
  {
    var v, visits := Run(subs), Visits(subs, s.name, s.id);
    var k := Find(v, s.name, s.id);
    KeysOfRun(subs, s.name, s.id);
    if k < |v| {
      var all := visits + [s];
      DepartureReflects(v[k], visits, s);
      SecondsAreRest(all);
      var u := Departed(v[k], s);
      assert all[0] == visits[0] && all[|visits|] == s;
      FieldsOfMinutes(u, MostMinutes(all));
      ComposedLine(u, s.name, s.id, visits[0].stamp, s.stamp);
    } else {
      NoVisits(subs, s.name, s.id);
    }
  }

  lemma {:induction false} FieldsOfMinutes(u: UserNode, q: int)
    requires Carried(u) && Total(u) == u.sec + 60 * q
    ensures u.data == q / 480 && u.hour == q % 480 / 60 && u.min == q % 60
  {
    MinuteFields(q, u.min, u.hour, u.data);
  }

  lemma {:induction false} MinuteFields(q: int, m: int, h: int, d: int)
    requires 0 <= m < 60 && 0 <= h < 8 && q == m + 60 * h + 480 * d
    ensures d == q / 480 && h == q % 480 / 60 && m == q % 60
  {
    var r := m + 60 * h;
    assert q == r + 480 * d && 0 <= r < 480;
    assert q / 480 == d && q % 480 == r;
    assert r / 60 == h && r % 60 == m;
    assert q == m + 60 * (h + 8 * d);
  }

  lemma {:induction false} ComposedLine(u: UserNode, name: string, id: string, arrival: string, departure: string)
    requires u.name == name && u.id == id && u.arriveTime == arrival && u.leaveTime == departure
    ensures TotalLine(u) == name + " " + id + " " + arrival + " " + departure + " " +
                            Print(u.data) + ":" + Print(u.hour) + ":" + Print(u.min) + ":" + Print(u.sec)
  {
    var p := name + " " + id + " " + arrival + " " + departure + " ";
    assert TotalLine(u) == p + Duration(u);
    Grouped(p, Print(u.data), Print(u.hour), Print(u.min), Print(u.sec));
  }

  lemma {:induction false} Grouped(p: string, a: string, b: string, c: string, d: string)
    ensures p + (a + ":" + b + ":" + c + ":" + d) == p + a + ":" + b + ":" + c + ":" + d
  {}

  /** Ann arrives at 0 and leaves 65 seconds later. */
  lemma {:induction false} LineExample()
    ensures VisitLine([Submission("Ann", "7", 0, "A")], Submission("Ann", "7", 65, "B")) == "Ann 7 A B 0:0:1:5"
  {
    MinuteAndFive(Submission("Ann", "7", 0, "A"), Submission("Ann", "7", 65, "B"));
    assert Print(0) == "0" && Print(1) == "1" && Print(5) == "5";
  }

  lemma {:induction false} MinuteAndFive(first: Submission, next: Submission)
    requires first.now == 0 && next.now == 65
    ensures TimeSince(0, [first] + [next]) == 65 && MostMinutes([first] + [next]) == 1
  {
    var visits, all := [first], [first] + [next];
    assert all[..1] == visits && all[..2] == all;
    SecondsAreRest(visits);
    assert TimeSince(0, visits) == 0 by {
      assert visits[..0] == [];
    }
    assert MinutesAfter(all, 2) == 1;
  }

  /** A second visit one second before the first leaves a record that is not canonical; a third
      one two seconds after it makes the record canonical again. */
  lemma {:induction false} BorrowExamples(s: Submission)
    ensures var early := [s.(now := 5), s.(now := 4)];
            Seconds(early) == -1 && Seconds(early + [s.(now := 7)]) == 1
    ensures Clean(s) ==> !Canonical(Run([s.(now := 5), s.(now := 4)])[0])
  {
    var a, b, c := s.(now := 5), s.(now := 4), s.(now := 7);
    var early := [a, b];
    assert early[..1] == [a] && (early + [c])[..2] == early;
    if Clean(s) {
      assert Run([a]) == Submit(Run([a][..0]), a) == [Arrival(s.name, s.id, 5, s.stamp)];
      var u := Arrival(s.name, s.id, 5, s.stamp);
      MatchIsEquality(u, s.name, s.id);
      assert Run(early) == Submit(Run([a]), b) == [Departed(u, b)];
      WorkedIsHonest(u.(endTime := 4, leaveTime := s.stamp));
    }
  }

  /** A submission changes no record but its own person's. */
  lemma {:induction false} OthersUnchanged(v: seq<UserNode>, s: Submission, j: nat)
    requires j < |v| && !Matches(v[j], s.name, s.id)
    ensures j < |Submit(v, s)| && Submit(v, s)[j] == v[j]
  {}

  /** When the clock never runs behind a person's first visit, and neither the time since
      that visit nor the days worked outgrow an `int`, the next submission is representable. */
  lemma {:induction false} NextIsRepresentable(subs: seq<Submission>, s: Submission)
    requires AllClean(subs) && Clean(s)
    requires var visits := Visits(subs, s.name, s.id) + [s];
             && NeverBeforeFirst(visits)
             && s.now - visits[0].now < 0x8000_0000 - MINUTE
             && TimeSince(visits[0].now, visits) < DAY * 0x8000_0000
    ensures Representable(Run(subs), s)
  {
    var v := Run(subs);
    var k := Find(v, s.name, s.id);
    KeysOfRun(subs, s.name, s.id);
    if k < |v| {
      var visits := Visits(subs, s.name, s.id);
      var more := visits + [s];
      assert forall i | 0 <= i < |visits| :: more[i] == visits[i];
      DepartureReflects(v[k], visits, s);
      SecondsNeverNegative(visits);
      SecondsNeverNegative(more);
      var u := Departed(v[k], s);
      assert more[|visits|] == s;
      assert Total(u) < DAY * 0x8000_0000;
      CanonicalIsDivision(u);
    }
  }
}
