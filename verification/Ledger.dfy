/** The attendance ledger (`class server_http`), its submissions handled one at a time. */
module Ledger {
  import opened CStrings
  import opened Decimal
  import opened WorkTime
  import FormText

  const INT_TO_STR_SIZE := 255

  /** strcmp(a.c_str(), b.c_str()) == 0 */
  predicate SameCString(a: string, b: string) {
    CStr(a, 0) == CStr(b, 0)
  }

  predicate Matches(u: UserNode, name: string, id: string) {
    SameCString(u.id, id) && SameCString(u.name, name)
  }

  /** The first record of the person, or the length of the vector. */
  function Find(v: seq<UserNode>, name: string, id: string): (k: nat)
    ensures k <= |v|
    ensures k < |v| ==> Matches(v[k], name, id)
    ensures forall i | 0 <= i < k :: !Matches(v[i], name, id)
  {
    if v == [] then 0
    else if Matches(v[0], name, id) then 0
    else 1 + Find(v[1..], name, id)
  }

  datatype Submission = Submission(name: string, id: string, now: int, stamp: string)

  function Departed(u: UserNode, s: Submission): UserNode {
    Worked(u.(endTime := s.now, leaveTime := s.stamp))
  }

  /** The ledger after one submission. */
  function Submit(v: seq<UserNode>, s: Submission): seq<UserNode> {
    var k := Find(v, s.name, s.id);
    if k < |v| then v[k := Departed(v[k], s)] else v + [Arrival(s.name, s.id, s.now, s.stamp)]
  }

  /** The ledger after all of `subs`, one at a time. */
  function Run(subs: seq<Submission>): seq<UserNode> {
    if subs == [] then [] else Submit(Run(subs[..|subs| - 1]), subs[|subs| - 1])
  }

  /** Names and ids come out of C strings. */
  predicate Clean(s: Submission) {
    NUL !in s.name && NUL !in s.id
  }

  predicate AllClean(subs: seq<Submission>) {
    forall i | 0 <= i < |subs| :: Clean(subs[i])
  }


  predicate AllCarried(v: seq<UserNode>) {
    forall i | 0 <= i < |v| :: Carried(v[i])
  }

  lemma {:induction false} RunExtended(subs: seq<Submission>, s: Submission)
    requires AllCarried(Run(subs)) && AllClean(subs) && Clean(s)
    ensures Run(subs + [s]) == Submit(Run(subs), s)
    ensures AllCarried(Submit(Run(subs), s)) && AllClean(subs + [s])
  {
    assert (subs + [s])[..|subs|] == subs;
    var k := Find(Run(subs), s.name, s.id);
    if k < |Run(subs)| {
      WorkedIsHonest(Run(subs)[k].(endTime := s.now, leaveTime := s.stamp));
    }
  }

  /** C leaves a conversion to `int` undefined when the value does not fit. */
  predicate Representable(v: seq<UserNode>, s: Submission) {
    var k := Find(v, s.name, s.id);
    k < |v| ==>
      && FitsInt(v[k].sec + (s.now - v[k].startTime))
      && FieldsFitInt(Departed(v[k], s))
  }

  /** The line composed for a departure. */
  function TotalLine(u: UserNode): string {
    u.name + " " + u.id + " " + u.arriveTime + " " + u.leaveTime + " " + Duration(u)
  }

  /** The line that a submission composes: none when the person is new. */
  function LineFor(v: seq<UserNode>, s: Submission): string {
    var k := Find(v, s.name, s.id);
    if k < |v| then TotalLine(Departed(v[k], s)) else ""
  }

  class ServerHttp {
    var size: nat
    var v: seq<UserNode>
    ghost var history: seq<Submission>

    constructor ()
      ensures Valid() && v == [] && history == []
    {
      size, v, history := 0, [], [];
    }

    /** The vector is the ledger of all submissions so far, and `size` counts it. */
    ghost predicate Valid()
      reads this
    {
      && size == |v| && AllCarried(v)
      && v == Run(history) && AllClean(history)
    }

    /** A miss counts the person who is about to be appended. */
    method FindId(name: string, id: string) returns (k: nat)
      modifies `size
      ensures k == Find(v, name, id)
      ensures size == if k == |v| then old(size) + 1 else old(size)
    {
      k := 0;
      while k != |v|
        invariant k <= |v| && size == old(size)
        invariant Find(v, name, id) == k + Find(v[k..], name, id)
        decreases |v| - k
      {
        if Matches(v[k], name, id) {
          return;
        }
        assert v[k..][1..] == v[k + 1..];
        k := k + 1;
      }
      size := size + 1;
    }

    /** The carry loop, a minute at a time, ends with the quotients and remainders. */
    method CalculatWorkTime(k: nat)
      requires k < |v| && Carried(v[k]) && FitsInt(v[k].sec + Elapsed(v[k]))
      modifies `v
      ensures v == old(v)[k := Worked(old(v)[k])]
    {
      ghost var u := v[k];
      ghost var s := u.sec + Elapsed(u);
      v := v[k := v[k].(sec := v[k].sec + (v[k].endTime - v[k].startTime))];
      while v[k].sec >= 60
        invariant |v| == |old(v)| && v == old(v)[k := v[k]]
        invariant Total(v[k]) == Total(u) + Elapsed(u)
        invariant Carried(v[k].(sec := 0))
        invariant v[k] == u.(sec := v[k].sec, min := v[k].min, hour := v[k].hour, data := v[k].data)
        invariant s < 60 ==> v[k] == u.(sec := s)
        invariant s >= 60 ==> v[k].sec >= 0
        decreases v[k].sec
      {
        v := v[k := v[k].(min := v[k].min + 1)];
        if v[k].min >= 60 {
          v := v[k := v[k].(hour := v[k].hour + 1)];
          v := v[k := v[k].(min := v[k].min - 60)];
        }
        if v[k].hour >= 8 {
          v := v[k := v[k].(data := v[k].data + 1)];
          v := v[k := v[k].(hour := v[k].hour - 8)];
        }
        v := v[k := v[k].(sec := v[k].sec - 60)];
      }
      if s >= 60 {
        CanonicalIsDivision(v[k]);
      }
    }

    /** Each number is printed into a buffer of its own size, then appended. */
    method IntToString(k: nat) returns (tmp: string)
      requires k < |v| && FieldsFitInt(v[k])
      ensures tmp == Duration(v[k])
    {
      var buf := new char[INT_TO_STR_SIZE];
      PrintInto(v[k].data, buf);
      tmp := CStr(buf[..], 0) + ":";
      PrintInto(v[k].hour, buf);
      tmp := tmp + CStr(buf[..], 0) + ":";
      PrintInto(v[k].min, buf);
      tmp := tmp + CStr(buf[..], 0) + ":";
      PrintInto(v[k].sec, buf);
      tmp := tmp + CStr(buf[..], 0);
    }

    method GetTotalString(k: nat) returns (tmp: string)
      requires k < |v|
      ensures tmp == v[k].name + " " + v[k].id + " " + v[k].arriveTime + " " + v[k].leaveTime + " "
    {
      tmp := v[k].name;
      tmp := tmp + " ";
      tmp := tmp + v[k].id;
      tmp := tmp + " ";
      tmp := tmp + v[k].arriveTime;
      tmp := tmp + " ";
      tmp := tmp + v[k].leaveTime;
      tmp := tmp + " ";
    }

    /** The branch of `send_vector` for a person who is already stored. */
    method RecordDeparture(k: nat, s: Submission) returns (line: string)
      requires k < |v| && Carried(v[k]) && FitsInt(v[k].sec + (s.now - v[k].startTime))
      requires FieldsFitInt(Departed(v[k], s))
      modifies `v
      ensures v == old(v)[k := Departed(old(v)[k], s)] && Carried(v[k])
      ensures line == TotalLine(v[k])
    {
      ghost var u := v[k].(endTime := s.now, leaveTime := s.stamp);
      v := v[k := v[k].(endTime := s.now)];
      v := v[k := v[k].(leaveTime := s.stamp)];
      assert v[k] == u;
      WorkedIsHonest(u);
      CalculatWorkTime(k);
      line := GetTotalString(k);
      var totalTime := IntToString(k);
      line := line + totalTime;
    }

    /** One submission; `now` and `stamp` are the clock reading and its printed form, and
        `pointerSize` is sizeof(char *). */
    method SendVector(query: string, now: int, stamp: string, pointerSize: nat) returns (line: string)
      requires Valid()
      requires NUL !in query && FormText.HasSecondField(query)
      requires Representable(v, Submission(FormText.NameOf(query), FormText.IdOf(query), now, stamp))
      modifies this
      ensures Valid()
      ensures var s := Submission(FormText.NameOf(query), FormText.IdOf(query), now, stamp);
              && history == old(history) + [s]
              && v == Submit(old(v), s)
              && line == LineFor(old(v), s)
    {
      var tmp := NewBuffer(|query| + 1 + pointerSize);
      var name, id := FormText.GetString(query, tmp, pointerSize);
      FormText.FieldsHaveNoNul(query);
      var s := Submission(name, id, now, stamp);
      RunExtended(history, s);
      var prev := FindId(name, id);
      if prev != |v| {
        line := RecordDeparture(prev, s);
      } else {
        line := "";
        v := v + [Arrival(name, id, now, stamp)];
      }
      history := history + [s];
    }
  }

  method PrintInto(n: int, buf: array<char>)
    requires FitsInt(n) && buf.Length == INT_TO_STR_SIZE
    modifies buf
    ensures CStr(buf[..], 0) == Print(n)
  {
    Clear(buf, buf.Length);
    PrintedIntIsShort(n);
    CopyString(buf, Print(n));
    PrintedChars(n);
    CStrOfOverlay(buf[..], Print(n));
  }
}
