/** Any number of threads run `send_vector` over one non-recursive mutex (`server_http.h`).
    Commands keep the lock and unlock calls, the loops and the branches of the source, and where
    it writes to `size`, to the vector or to the struct that `localtime` fills; everything else
    a thread does is a `Local` step, and every interleaving is allowed. */
module MutexDiscipline {
  datatype Cmd =
    | Local
    | Update                      // writes to what the threads share
    | Lock
    | Unlock
    | Then(first: Cmd, second: Cmd)
    | Loop(body: Cmd)             // any number of rounds
    | Either(left: Cmd, right: Cmd)

  // ---------------------------------------------------------------------------
  // The threads
  // ---------------------------------------------------------------------------

  /** `todo[i]` is what thread `i` still has to run, and `depth[i]` how many more lock than
      unlock calls it has made; the mutex itself only knows whether it is locked. */
  datatype State = State(locked: bool, depth: seq<int>, todo: seq<seq<Cmd>>)
  {
    ghost predicate WellFormed() {
      |depth| == |todo|
    }

    predicate Finished() {
      forall i | 0 <= i < |todo| :: todo[i] == []
    }
  }

  function Initial(program: Cmd, threads: nat): (s: State)
    ensures s.WellFormed()
  {
    State(false, seq(threads, _ => 0), seq(threads, _ => [program]))
  }

  /** The ways the first command of a thread can be replaced without touching the mutex. */
  predicate Unfolds(todo: seq<Cmd>, next: seq<Cmd>) {
    && todo != []
    && match todo[0]
       case Local => next == todo[1..]
       case Update => next == todo[1..]
       case Lock => false
       case Unlock => false
       case Then(a, b) => next == [a, b] + todo[1..]
       case Loop(b) => next == todo[1..] || next == [b] + todo
       case Either(a, b) => next == [a] + todo[1..] || next == [b] + todo[1..]
  }

  /** Thread `i` takes one step.  Locking waits until the mutex is free. */
  ghost predicate Step(s: State, t: State, i: nat) {
    && s.WellFormed() && t.WellFormed()
    && i < |s.todo| && s.todo[i] != []
    && |t.todo| == |s.todo|
    && t.todo == s.todo[i := t.todo[i]]
    && match s.todo[i][0]
       case Lock =>
         !s.locked && t.locked && t.todo[i] == s.todo[i][1..] && t.depth == s.depth[i := s.depth[i] + 1]
       case Unlock =>
         !t.locked && t.todo[i] == s.todo[i][1..] && t.depth == s.depth[i := s.depth[i] - 1]
       case _ =>
         Unfolds(s.todo[i], t.todo[i]) && t.locked == s.locked && t.depth == s.depth
  }

  ghost predicate Reaches(s: State, t: State, steps: nat)
    decreases steps
  {
    if steps == 0 then s == t
    else exists u, i :: Step(s, u, i) && Reaches(u, t, steps - 1)
  }

  // ---------------------------------------------------------------------------
  // What must never go wrong
  // ---------------------------------------------------------------------------

  ghost predicate NoRelock(s: State)
    requires s.WellFormed()
  {
    forall i | 0 <= i < |s.todo| && s.todo[i] != [] && s.todo[i][0] == Lock :: s.depth[i] == 0
  }

  ghost predicate UnlocksOnlyOwn(s: State)
    requires s.WellFormed()
  {
    forall i | 0 <= i < |s.todo| && s.todo[i] != [] && s.todo[i][0] == Unlock :: s.depth[i] == 1
  }

  ghost predicate UpdatesOnlyHolding(s: State)
    requires s.WellFormed()
  {
    forall i | 0 <= i < |s.todo| && s.todo[i] != [] && s.todo[i][0] == Update :: s.depth[i] == 1
  }

  ghost predicate OneHolder(s: State)
    requires s.WellFormed()
  {
    && (forall i | 0 <= i < |s.depth| :: s.depth[i] == 0 || (s.depth[i] == 1 && s.locked))
    && (forall i, j | 0 <= i < j < |s.depth| :: s.depth[i] == 0 || s.depth[j] == 0)
  }

  ghost predicate CanStep(s: State) {
    exists t, i :: Step(s, t, i)
  }

  ghost predicate Safe(s: State) {
    && s.WellFormed()
    && NoRelock(s)
    && UnlocksOnlyOwn(s)
    && UpdatesOnlyHolding(s)
    && OneHolder(s)
    && (!s.Finished() ==> CanStep(s))
    && (s.Finished() ==> !s.locked)
  }

  // ---------------------------------------------------------------------------
  // What a command can come to
  // ---------------------------------------------------------------------------

  /** What a thread can come to in a command: its end, with or without the mutex, or on the way to
      lock what it holds, to unlock what it does not, or to update without the mutex. */
  datatype Outcome = Ends(held: bool) | Relocks | Foreign | Bare

  /** Whether some path through `c`, entered with or without the mutex, comes to `o`. */
  predicate Can(c: Cmd, held: bool, o: Outcome) {
    match c
    case Local => o == Ends(held)
    case Update => o == Ends(held) || (!held && o == Bare)
    case Lock => o == if held then Relocks else Ends(true)
    case Unlock => o == if held then Ends(false) else Foreign
    case Then(a, b) =>
      || (!o.Ends? && Can(a, held, o))
      || (Can(a, held, Ends(held)) && Can(b, held, o))
      || (Can(a, held, Ends(!held)) && Can(b, !held, o))
    case Loop(b) => o == Ends(held) || Can(b, held, o) || (Can(b, held, Ends(!held)) && Can(b, !held, o))
    case Either(a, b) => Can(a, held, o) || Can(b, held, o)
  }

  predicate CanAll(todo: seq<Cmd>, held: bool, o: Outcome) {
    if todo == [] then o == Ends(held)
    else
      || (!o.Ends? && Can(todo[0], held, o))
      || (Can(todo[0], held, Ends(held)) && CanAll(todo[1..], held, o))
      || (Can(todo[0], held, Ends(!held)) && CanAll(todo[1..], !held, o))
  }

  /** Entered without the mutex, every path ends without it, and updates only with it. */
  predicate Disciplined(c: Cmd) {
    !Can(c, false, Relocks) && !Can(c, false, Bare) && Owned(c)
  }

  /** Entered without the mutex, no path unlocks it for another thread or keeps it. */
  predicate Owned(c: Cmd) {
    !Can(c, false, Foreign) && !Can(c, false, Ends(true))
  }

  lemma {:induction false} CanFirst(c: Cmd, k: seq<Cmd>, held: bool, o: Outcome)
    ensures CanAll([c] + k, held, o) <==>
              || (!o.Ends? && Can(c, held, o))
              || (Can(c, held, Ends(held)) && CanAll(k, held, o))
              || (Can(c, held, Ends(!held)) && CanAll(k, !held, o))
  {
    assert ([c] + k)[1..] == k;
  }

  lemma {:induction false} UnfoldNarrows(todo: seq<Cmd>, next: seq<Cmd>, held: bool, o: Outcome)
    requires Unfolds(todo, next) && CanAll(next, held, o)
    ensures CanAll(todo, held, o)
  {
    var c, k := todo[0], todo[1..];
    assert todo == [c] + k;
    CanFirst(c, k, held, o);
    match c
    case Then(a, b) =>
      assert next == [a] + ([b] + k);
      CanFirst(a, [b] + k, held, o);
      CanFirst(b, k, held, o);
      CanFirst(b, k, !held, o);
    case Loop(b) =>
      if next != k {
        CanFirst(b, todo, held, o);
        CanFirst(c, k, !held, o);
      }
    case Either(a, b) =>
      CanFirst(if next == [a] + k then a else b, k, held, o);
    case _ =>
  }

  /** A lock or unlock call either shows its outcome or passes the mutex on. */
  lemma {:induction false} CallComesTo(todo: seq<Cmd>, held: bool, o: Outcome)
    requires todo != [] && (todo[0] == Lock || todo[0] == Unlock)
    ensures CanAll(todo, held, o) <==>
              if held == (todo[0] == Unlock) then CanAll(todo[1..], !held, o)
              else o == if held then Relocks else Foreign
  {
    assert Can(todo[0], held, Ends(!held)) <==> held == (todo[0] == Unlock);
  }

  // ---------------------------------------------------------------------------
  // Threads that unlock only what they hold
  // ---------------------------------------------------------------------------

  predicate ThreadCan(s: State, i: nat, o: Outcome)
    requires |s.depth| == |s.todo| && i < |s.todo|
  {
    CanAll(s.todo[i], s.depth[i] == 1, o)
  }

  ghost predicate Inv(s: State) {
    && s.WellFormed()
    && OneHolder(s)
    && (s.locked ==> exists h :: 0 <= h < |s.depth| && s.depth[h] == 1)
    && (forall i | 0 <= i < |s.todo| :: !ThreadCan(s, i, Foreign))
  }

  lemma {:induction false} InitialInv(program: Cmd, threads: nat)
    requires !Can(program, false, Foreign)
    ensures Inv(Initial(program, threads))
    ensures forall i, o | 0 <= i < threads :: ThreadCan(Initial(program, threads), i, o) <==> Can(program, false, o)
  {
    forall o
      ensures CanAll([program], false, o) <==> Can(program, false, o)
    {
      assert [program][1..] == [];
      assert forall h :: CanAll([], h, o) <==> o == Ends(h);
    }
  }

  /** A step keeps the invariant, and no thread can come to more than before. */
  lemma {:induction false} StepNarrows(s: State, t: State, i: nat)
    requires Inv(s) && Step(s, t, i)
    ensures Inv(t)
    ensures forall j, o | 0 <= j < |s.todo| :: ThreadCan(t, j, o) ==> ThreadCan(s, j, o)
  {
    var todo, held := s.todo[i], s.depth[i] == 1;
    assert !ThreadCan(s, i, Foreign);
    if todo[0] == Lock || todo[0] == Unlock {
      CallComesTo(todo, held, Foreign);
      assert t.depth[i] == if held then 0 else 1;
    }
    forall o | ThreadCan(t, i, o)
      ensures ThreadCan(s, i, o)
    {
      if todo[0] == Lock || todo[0] == Unlock {
        CallComesTo(todo, held, o);
      } else {
        UnfoldNarrows(todo, t.todo[i], held, o);
      }
    }
    forall j | 0 <= j < |t.todo|
      ensures !ThreadCan(t, j, Foreign)
    {
      assert !ThreadCan(s, j, Foreign);
    }
  }

  lemma {:induction false} ReachedNarrows(s: State, t: State, steps: nat)
    requires Inv(s) && Reaches(s, t, steps)
    ensures Inv(t) && |t.todo| == |s.todo|
    ensures forall j, o | 0 <= j < |s.todo| :: ThreadCan(t, j, o) ==> ThreadCan(s, j, o)
    decreases steps
  {
    if steps > 0 {
      var u, i :| Step(s, u, i) && Reaches(u, t, steps - 1);
      StepNarrows(s, u, i);
      ReachedNarrows(u, t, steps - 1);
    }
  }

  lemma {:induction false} InvIsSafe(s: State)
    requires Inv(s)
    requires forall i | 0 <= i < |s.todo| :: !ThreadCan(s, i, Relocks) && !ThreadCan(s, i, Ends(true))
    requires forall i | 0 <= i < |s.todo| :: !ThreadCan(s, i, Bare)
    ensures Safe(s)
  {
    forall i | 0 <= i < |s.todo| && s.todo[i] != [] && s.todo[i][0] == Update
      ensures s.depth[i] == 1
    {
      assert !ThreadCan(s, i, Bare);
    }
    forall i | 0 <= i < |s.todo| && s.todo[i] != [] && (s.todo[i][0] == Lock || s.todo[i][0] == Unlock)
      ensures s.depth[i] == if s.todo[i][0] == Lock then 0 else 1
    {
      CallComesTo(s.todo[i], s.depth[i] == 1, if s.depth[i] == 1 then Relocks else Foreign);
      assert !ThreadCan(s, i, Relocks) && !ThreadCan(s, i, Foreign);
    }
    if s.locked {
      var h :| 0 <= h < |s.depth| && s.depth[h] == 1;
      assert !ThreadCan(s, h, Relocks) && !ThreadCan(s, h, Ends(true));
      ThreadCanStep(s, h);
    } else if !s.Finished() {
      var i :| 0 <= i < |s.todo| && s.todo[i] != [];
      ThreadCanStep(s, i);
    }
  }

  lemma {:induction false} ThreadCanStep(s: State, i: nat)
    requires s.WellFormed() && i < |s.todo| && s.todo[i] != []
    requires s.todo[i][0] == Lock ==> !s.locked
    ensures CanStep(s)
  {
    var rest := s.todo[i][1..];
    var next := match s.todo[i][0]
      case Then(a, b) => [a, b] + rest
      case Either(a, b) => [a] + rest
      case _ => rest;
    var t := match s.todo[i][0]
      case Lock => State(true, s.depth[i := s.depth[i] + 1], s.todo[i := next])
      case Unlock => State(false, s.depth[i := s.depth[i] - 1], s.todo[i := next])
      case _ => s.(todo := s.todo[i := next]);
    assert Step(s, t, i);
  }

  /** A disciplined program is safe in every state that any number of threads running it
      can reach, under every interleaving. */
  lemma {:induction false} DisciplineIsSafe(program: Cmd, threads: nat, t: State, steps: nat)
    requires Disciplined(program) && Reaches(Initial(program, threads), t, steps)
    ensures Safe(t)
  {
    InitialInv(program, threads);
    ReachedNarrows(Initial(program, threads), t, steps);
    InvIsSafe(t);
  }

  // ---------------------------------------------------------------------------
  // One thread alone comes to all that its program can come to
  // ---------------------------------------------------------------------------

  predicate Among(s: State, i: nat) {
    |s.depth| == |s.todo| && i < |s.todo|
  }

  /** Thread `i` of `s` has `todo` to run; it holds the mutex or the mutex is free. */
  function Alone(s: State, i: nat, held: bool, todo: seq<Cmd>): (t: State)
    requires Among(s, i)
    ensures Among(t, i) && |t.todo| == |s.todo|
  {
    State(held, s.depth[i := if held then 1 else 0], s.todo[i := todo])
  }

  /** The state in which the outcome shows: `rest` is still to run. */
  function Shows(s: State, i: nat, o: Outcome, rest: seq<Cmd>): State
    requires Among(s, i)
  {
    match o
    case Ends(held) => Alone(s, i, held, rest)
    case Relocks => Alone(s, i, true, [Lock] + rest)
    case Foreign => Alone(s, i, false, [Unlock] + rest)
    case Bare => Alone(s, i, false, [Update] + rest)
  }

  lemma {:induction false} ReachesTrans(s: State, u: State, t: State, m: nat, n: nat)
    requires Reaches(s, u, m) && Reaches(u, t, n)
    ensures Reaches(s, t, m + n)
    decreases m
  {
    if m > 0 {
      var v, i :| Step(s, v, i) && Reaches(v, u, m - 1);
      ReachesTrans(v, u, t, m - 1, n);
    }
  }

  lemma {:induction false} AloneUnfolds(s: State, i: nat, held: bool, todo: seq<Cmd>, next: seq<Cmd>, t: State, n: nat)
    requires Among(s, i)
    requires Unfolds(todo, next) && Reaches(Alone(s, i, held, next), t, n)
    ensures Reaches(Alone(s, i, held, todo), t, n + 1)
  {
    var x, u := Alone(s, i, held, todo), Alone(s, i, held, next);
    assert u.todo == x.todo[i := u.todo[i]];
    assert Step(x, u, i);
  }

  lemma {:induction false} AloneRuns(s: State, i: nat, c: Cmd, k: seq<Cmd>, held: bool, o: Outcome) returns (n: nat, rest: seq<Cmd>)
    requires Among(s, i)
    requires Can(c, held, o)
    ensures Reaches(Alone(s, i, held, [c] + k), Shows(s, i, o, rest), n)
    ensures o.Ends? ==> rest == k
    decreases c, 1
  {
    var todo := [c] + k;
    assert todo[1..] == k;
    match c {
      case Local =>
        rest := k;
        AloneUnfolds(s, i, held, todo, k, Shows(s, i, o, k), 0);
        n := 1;
      case Update =>
        rest := k;
        if o == Bare {
          n := 0;
        } else {
          AloneUnfolds(s, i, held, todo, k, Shows(s, i, o, k), 0);
          n := 1;
        }
      case Lock =>
        n, rest := AloneCalls(s, i, c, k, held, o);
      case Unlock =>
        n, rest := AloneCalls(s, i, c, k, held, o);
      case Then(a, b) =>
        assert [a, b] + k == [a] + ([b] + k);
        if !o.Ends? && Can(a, held, o) {
          n, rest := AloneRuns(s, i, a, [b] + k, held, o);
        } else {
          var h := if Can(a, held, Ends(held)) && Can(b, held, o) then held else !held;
          n, rest := AloneRunsTwo(s, i, a, b, k, held, h, o);
        }
        AloneUnfolds(s, i, held, todo, [a, b] + k, Shows(s, i, o, rest), n);
        n := n + 1;
      case Loop(b) =>
        n, rest := AloneLoops(s, i, b, k, held, o);
      case Either(a, b) =>
        var d := if Can(a, held, o) then a else b;
        n, rest := AloneRuns(s, i, d, k, held, o);
        AloneUnfolds(s, i, held, todo, [d] + k, Shows(s, i, o, rest), n);
        n := n + 1;
    }
  }

  lemma {:induction false} AloneCalls(s: State, i: nat, c: Cmd, k: seq<Cmd>, held: bool, o: Outcome) returns (n: nat, rest: seq<Cmd>)
    requires Among(s, i)
    requires (c == Lock || c == Unlock) && Can(c, held, o)
    ensures Reaches(Alone(s, i, held, [c] + k), Shows(s, i, o, rest), n) && rest == k
  {
    rest := k;
    var x, t := Alone(s, i, held, [c] + k), Shows(s, i, o, k);
    if o.Ends? {
      n := 1;
      assert ([c] + k)[1..] == k && t.todo == x.todo[i := t.todo[i]];
      assert t.depth == x.depth[i := t.depth[i]];
      assert Step(x, t, i) && Reaches(t, t, 0);
    } else {
      n := 0;
    }
  }

  lemma {:induction false} AloneRunsTwo(s: State, i: nat, a: Cmd, b: Cmd, k: seq<Cmd>, held: bool, h: bool, o: Outcome)
    returns (n: nat, rest: seq<Cmd>)
    requires Among(s, i)
    requires Can(a, held, Ends(h)) && Can(b, h, o)
    ensures Reaches(Alone(s, i, held, [a] + ([b] + k)), Shows(s, i, o, rest), n)
    ensures o.Ends? ==> rest == k
    decreases Then(a, b), 0
  {
    var m, r := AloneRuns(s, i, a, [b] + k, held, Ends(h));
    n, rest := AloneRuns(s, i, b, k, h, o);
    ReachesTrans(Alone(s, i, held, [a] + ([b] + k)), Alone(s, i, h, [b] + k), Shows(s, i, o, rest), m, n);
    n := m + n;
  }

  lemma {:induction false} AloneLoops(s: State, i: nat, b: Cmd, k: seq<Cmd>, held: bool, o: Outcome) returns (n: nat, rest: seq<Cmd>)
    requires Among(s, i)
    requires Can(Loop(b), held, o)
    ensures Reaches(Alone(s, i, held, [Loop(b)] + k), Shows(s, i, o, rest), n)
    ensures o.Ends? ==> rest == k
    decreases Loop(b), 0
  {
    var todo := [Loop(b)] + k;
    if o == Ends(held) {
      rest := k;
      n := LeaveLoop(s, i, b, k, held);
    } else if !o.Ends? && Can(b, held, o) {
      n, rest := AloneRuns(s, i, b, todo, held, o);
      n := EnterLoop(s, i, b, k, held, Shows(s, i, o, rest), n);
    } else {
      var m, _ := AloneRuns(s, i, b, todo, held, Ends(!held));
      m := EnterLoop(s, i, b, k, held, Alone(s, i, !held, todo), m);
      if o.Ends? {
        rest := k;
        n := LeaveLoop(s, i, b, k, !held);
      } else {
        n, rest := AloneRuns(s, i, b, todo, !held, o);
        n := EnterLoop(s, i, b, k, !held, Shows(s, i, o, rest), n);
      }
      ReachesTrans(Alone(s, i, held, todo), Alone(s, i, !held, todo), Shows(s, i, o, rest), m, n);
      n := m + n;
    }
  }

  lemma {:induction false} EnterLoop(s: State, i: nat, b: Cmd, k: seq<Cmd>, held: bool, t: State, m: nat) returns (n: nat)
    requires Among(s, i)
    requires Reaches(Alone(s, i, held, [b] + ([Loop(b)] + k)), t, m)
    ensures Reaches(Alone(s, i, held, [Loop(b)] + k), t, n)
  {
    var todo := [Loop(b)] + k;
    assert Unfolds(todo, [b] + todo);
    AloneUnfolds(s, i, held, todo, [b] + todo, t, m);
    n := m + 1;
  }

  lemma {:induction false} LeaveLoop(s: State, i: nat, b: Cmd, k: seq<Cmd>, held: bool) returns (n: nat)
    requires Among(s, i)
    ensures Reaches(Alone(s, i, held, [Loop(b)] + k), Alone(s, i, held, k), n)
  {
    var todo := [Loop(b)] + k;
    assert todo[1..] == k;
    AloneUnfolds(s, i, held, todo, k, Alone(s, i, held, k), 0);
    n := 1;
  }

  lemma {:induction false} ProgramRuns(program: Cmd, o: Outcome) returns (n: nat, rest: seq<Cmd>)
    requires Can(program, false, o)
    ensures Reaches(Initial(program, 1), Shows(Initial(program, 1), 0, o, rest), n)
    ensures o.Ends? ==> rest == []
  {
    var s := Initial(program, 1);
    n, rest := AloneRuns(s, 0, program, [], false, o);
    assert [program] + [] == [program];
    assert s == Alone(s, 0, false, [program]);
  }

  lemma {:induction false} SomeOutcome(c: Cmd, held: bool) returns (o: Outcome)
    ensures Can(c, held, o)
  {
    match c {
      case Local => o := Ends(held);
      case Update => o := Ends(held);
      case Lock => o := if held then Relocks else Ends(true);
      case Unlock => o := if held then Ends(false) else Foreign;
      case Then(a, b) =>
        o := SomeOutcome(a, held);
        if o.Ends? {
          o := SomeOutcome(b, o.held);
        }
      case Loop(_) => o := Ends(held);
      case Either(a, _) => o := SomeOutcome(a, held);
    }
  }

  // ---------------------------------------------------------------------------
  // From everywhere, all threads can still finish
  // ---------------------------------------------------------------------------

  /** All of `todo` can only end without the mutex. */
  predicate EndsFree(todo: seq<Cmd>, held: bool) {
    && !CanAll(todo, held, Relocks) && !CanAll(todo, held, Foreign) && !CanAll(todo, held, Bare)
    && !CanAll(todo, held, Ends(true))
  }

  lemma {:induction false} EndsFreeAfter(todo: seq<Cmd>, held: bool, o: Outcome)
    requires todo != [] && EndsFree(todo, held) && Can(todo[0], held, o)
    ensures o.Ends? && EndsFree(todo[1..], o.held)
  {
    if o.Ends? {
      assert o.held == held || o.held == !held;
    }
  }

  lemma {:induction false} ThreadFinishes(s: State, i: nat, todo: seq<Cmd>, held: bool) returns (n: nat)
    requires Among(s, i) && EndsFree(todo, held)
    ensures Reaches(Alone(s, i, held, todo), Alone(s, i, false, []), n)
    decreases |todo|
  {
    if todo == [] {
      n := 0;
    } else {
      var c, k := todo[0], todo[1..];
      var o := SomeOutcome(c, held);
      EndsFreeAfter(todo, held, o);
      assert todo == [c] + k;
      var m, _ := AloneRuns(s, i, c, k, held, o);
      n := ThreadFinishes(s, i, k, o.held);
      ReachesTrans(Alone(s, i, held, todo), Alone(s, i, o.held, k), Alone(s, i, false, []), m, n);
      n := m + n;
    }
  }

  ghost predicate CanFinish(s: State) {
    exists t: State, n :: Reaches(s, t, n) && t.Finished()
  }

  /** With the mutex free and the first `k` threads finished, the others finish one by one. */
  lemma {:induction false} OthersFinish(s: State, k: nat)
    requires s.WellFormed() && !s.locked && k <= |s.todo|
    requires forall i | 0 <= i < |s.todo| :: s.depth[i] == 0 && EndsFree(s.todo[i], false)
    requires forall i | 0 <= i < k :: s.todo[i] == []
    ensures CanFinish(s)
    decreases |s.todo| - k
  {
    if k == |s.todo| {
      assert Reaches(s, s, 0);
    } else {
      var m := ThreadFinishes(s, k, s.todo[k], false);
      assert s == Alone(s, k, false, s.todo[k]);
      var u := Alone(s, k, false, []);
      OthersFinish(u, k + 1);
      ContinuesTo(s, u, m);
    }
  }

  lemma {:induction false} ContinuesTo(s: State, u: State, m: nat)
    requires Reaches(s, u, m) && CanFinish(u)
    ensures CanFinish(s)
  {
    var t: State, n :| Reaches(u, t, n) && t.Finished();
    ReachesTrans(s, u, t, m, n);
  }

  lemma {:induction false} AllFinish(s: State)
    requires Inv(s) && forall i | 0 <= i < |s.todo| :: EndsFree(s.todo[i], s.depth[i] == 1)
    ensures CanFinish(s)
  {
    if s.locked {
      var h :| 0 <= h < |s.depth| && s.depth[h] == 1;
      var m := ThreadFinishes(s, h, s.todo[h], true);
      assert s == Alone(s, h, true, s.todo[h]);
      var u := Alone(s, h, false, []);
      OthersFinish(u, 0);
      ContinuesTo(s, u, m);
    } else {
      OthersFinish(s, 0);
    }
  }

  /** Whatever threads running a disciplined program have done so far, all can still finish. */
  lemma {:induction false} DisciplineCanFinish(program: Cmd, threads: nat, t: State, steps: nat)
    requires Disciplined(program) && Reaches(Initial(program, threads), t, steps)
    ensures CanFinish(t)
  {
    InitialInv(program, threads);
    ReachedNarrows(Initial(program, threads), t, steps);
    forall i | 0 <= i < |t.todo|
      ensures EndsFree(t.todo[i], t.depth[i] == 1)
    {
      assert !ThreadCan(t, i, Relocks) && !ThreadCan(t, i, Foreign);
      assert !ThreadCan(t, i, Bare) && !ThreadCan(t, i, Ends(true));
    }
    AllFinish(t);
  }

  ghost predicate AlwaysSafe(program: Cmd, threads: nat) {
    forall t, steps | Reaches(Initial(program, threads), t, steps) :: Safe(t)
  }

  /** The discipline is exact: a disciplined program is safe for any number of threads, and any
      other goes wrong with a single one. */
  lemma {:induction false} DisciplineIsExact(program: Cmd, threads: nat)
    ensures Disciplined(program) ==> AlwaysSafe(program, threads)
    ensures !Disciplined(program) ==> !AlwaysSafe(program, 1)
  {
    if Disciplined(program) {
      forall t, steps | Reaches(Initial(program, threads), t, steps)
        ensures Safe(t)
      {
        DisciplineIsSafe(program, threads, t, steps);
      }
    } else {
      var o := if Can(program, false, Relocks) then Relocks
               else if Can(program, false, Foreign) then Foreign
               else if Can(program, false, Bare) then Bare else Ends(true);
      var n, rest := ProgramRuns(program, o);
      ShownIsUnsafe(Initial(program, 1), o, rest);
    }
  }

  lemma {:induction false} ShownIsUnsafe(one: State, o: Outcome, rest: seq<Cmd>)
    requires |one.depth| == |one.todo| == 1 && o != Ends(false) && (o.Ends? ==> rest == [])
    ensures !Safe(Shows(one, 0, o, rest))
  {
    var s := Shows(one, 0, o, rest);
    match o
    case Relocks =>
      assert s.todo[0][0] == Lock && s.depth[0] == 1;
    case Foreign =>
      assert s.todo[0][0] == Unlock && s.depth[0] == 0;
    case Bare =>
      assert s.todo[0][0] == Update && s.depth[0] == 0;
    case Ends(_) =>
      assert s.Finished();
  }

  // ---------------------------------------------------------------------------
  // send_vector and the functions it calls
  // ---------------------------------------------------------------------------

  function Chain(cs: seq<Cmd>): Cmd {
    if cs == [] then Local else Then(cs[0], Chain(cs[1..]))
  }

  lemma {:induction false} ChainIsDisciplined(cs: seq<Cmd>)
    requires forall i | 0 <= i < |cs| :: Disciplined(cs[i])
    ensures Disciplined(Chain(cs))
  {
    if cs != [] {
      ChainIsDisciplined(cs[1..]);
    }
  }

  /** `c` between a lock and an unlock call. */
  function Guarded(c: Cmd): Cmd {
    Then(Lock, Then(c, Unlock))
  }

  const SCAN := Loop(Local)

  const GET_STRING := Chain([Local, Guarded(Then(SCAN, SCAN)), Local, Guarded(SCAN), Local])

  const GET_TIME := Chain([Local, Guarded(Update), Local])

  const FIND_ID := Chain([Local, SCAN, Either(Local, Guarded(Update))])

  const CALCULAT_WORK_TIME := Then(Local, Loop(Chain([Local, Either(Local, Local), Either(Local, Local), Local])))

  const GET_TOTAL_STRING := Chain([Local, Guarded(Local), Local])

  const INT_TO_STRING :=
    Chain([Local, Guarded(Local), Local, Guarded(Local), Local, Guarded(Local), Local, Guarded(Local), Local])

  const RECORD_DEPARTURE :=
    Chain([Local, CALCULAT_WORK_TIME, GET_TOTAL_STRING, INT_TO_STRING, Local, Guarded(Local), Local])

  const RECORD_ARRIVAL := Then(Guarded(Then(Local, Update)), Local)

  const SEND_VECTOR := Chain([Local, GET_STRING, GET_TIME, Local, FIND_ID, Either(RECORD_DEPARTURE, RECORD_ARRIVAL), Local])

  lemma {:induction false} GetStringIsDisciplined()
    ensures Disciplined(GET_STRING)
  {
    GuardedIsDisciplined(SCAN);
    GuardedIsDisciplined(Then(SCAN, SCAN));
    ChainIsDisciplined([Local, Guarded(Then(SCAN, SCAN)), Local, Guarded(SCAN), Local]);
  }

  lemma {:induction false} GetTimeIsDisciplined()
    ensures Disciplined(GET_TIME)
  {
    GuardedIsDisciplined(Update);
    ChainIsDisciplined([Local, Guarded(Update), Local]);
  }

  lemma {:induction false} RecordArrivalIsDisciplined()
    ensures Disciplined(RECORD_ARRIVAL)
  {
    GuardedIsDisciplined(Then(Local, Update));
  }

  lemma {:induction false} FindIdIsDisciplined()
    ensures Disciplined(FIND_ID)
  {
    GuardedIsDisciplined(Update);
    assert Disciplined(Either(Local, Guarded(Update))) && Disciplined(SCAN);
    ChainIsDisciplined([Local, SCAN, Either(Local, Guarded(Update))]);
  }

  lemma {:induction false} CalculatWorkTimeIsDisciplined()
    ensures Disciplined(CALCULAT_WORK_TIME)
  {
    ChainIsDisciplined([Local, Either(Local, Local), Either(Local, Local), Local]);
  }

  lemma {:induction false} PrintersAreDisciplined()
    ensures Disciplined(GET_TOTAL_STRING) && Disciplined(INT_TO_STRING)
  {
    GuardedIsDisciplined(Local);
    ChainIsDisciplined([Local, Guarded(Local), Local]);
    ChainIsDisciplined(
      [Local, Guarded(Local), Local, Guarded(Local), Local, Guarded(Local), Local, Guarded(Local), Local]);
  }

  lemma {:induction false} PartsAreDisciplined()
    ensures Disciplined(GET_STRING) && Disciplined(GET_TIME) && Disciplined(FIND_ID)
    ensures Disciplined(CALCULAT_WORK_TIME) && Disciplined(GET_TOTAL_STRING) && Disciplined(INT_TO_STRING)
    ensures Disciplined(RECORD_ARRIVAL) && Disciplined(Guarded(Local)) && Disciplined(Local)
  {
    GetStringIsDisciplined();
    GetTimeIsDisciplined();
    RecordArrivalIsDisciplined();
    FindIdIsDisciplined();
    CalculatWorkTimeIsDisciplined();
    PrintersAreDisciplined();
    GuardedIsDisciplined(Local);
  }

  lemma {:induction false} SevenAreDisciplined(a: Cmd, b: Cmd, c: Cmd, d: Cmd, e: Cmd, f: Cmd, g: Cmd)
    requires Disciplined(a) && Disciplined(b) && Disciplined(c) && Disciplined(d) && Disciplined(e)
    requires Disciplined(f) && Disciplined(g)
    ensures Disciplined(Chain([a, b, c, d, e, f, g]))
  {
    ChainIsDisciplined([a, b, c, d, e, f, g]);
  }

  lemma {:induction false} SendVectorIsDisciplined()
    ensures Disciplined(SEND_VECTOR)
  {
    PartsAreDisciplined();
    SevenAreDisciplined(Local, CALCULAT_WORK_TIME, GET_TOTAL_STRING, INT_TO_STRING, Local, Guarded(Local), Local);
    SevenAreDisciplined(
      Local, GET_STRING, GET_TIME, Local, FIND_ID, Either(RECORD_DEPARTURE, RECORD_ARRIVAL), Local);
  }

  /** Over every interleaving of any number of threads running `send_vector`: no thread
      locks the mutex while holding it or unlocks it without, one that is about to count or to
      append a person holds it, at most one does, some unfinished thread can always step, all
      can still finish, and the mutex is free when they have. */
  lemma {:induction false} SendVectorIsSafe(threads: nat, t: State, steps: nat)
    requires Reaches(Initial(SEND_VECTOR, threads), t, steps)
    ensures Safe(t) && CanFinish(t)
  {
    SendVectorIsDisciplined();
    DisciplineIsSafe(SEND_VECTOR, threads, t, steps);
    DisciplineCanFinish(SEND_VECTOR, threads, t, steps);
  }

  // ---------------------------------------------------------------------------
  // The rule of the comment in send_vector: no outer lock around a callee that locks
  // ---------------------------------------------------------------------------

  predicate MayLock(c: Cmd) {
    match c
    case Local => false
    case Update => false
    case Lock => true
    case Unlock => false
    case Then(a, b) => MayLock(a) || MayLock(b)
    case Loop(b) => MayLock(b)
    case Either(a, b) => MayLock(a) || MayLock(b)
  }

  lemma {:induction false} NoLockKeepsHeld(c: Cmd, held: bool, o: Outcome)
    requires !MayLock(c) && !Can(c, false, Foreign) && (o == Bare ==> held)
    ensures Can(c, held, o) <==> o == Ends(held)
  {
    match c
    case Then(a, b) =>
      NoLockKeepsHeld(a, false, Ends(false));
      NoLockKeepsHeld(a, held, Ends(held));
      NoLockKeepsHeld(a, held, Ends(!held));
      NoLockKeepsHeld(a, held, o);
      NoLockKeepsHeld(b, held, o);
    case Loop(b) =>
      NoLockKeepsHeld(b, held, Ends(!held));
      NoLockKeepsHeld(b, held, o);
    case Either(a, b) =>
      NoLockKeepsHeld(a, held, o);
      NoLockKeepsHeld(b, held, o);
    case _ =>
  }

  /** Until its first lock call, such a callee runs the same with the mutex held. */
  lemma {:induction false} LockRelocks(c: Cmd)
    requires MayLock(c) && !Can(c, false, Foreign)
    ensures Can(c, true, Relocks)
  {
    match c
    case Lock =>
    case Then(a, b) =>
      if MayLock(a) {
        LockRelocks(a);
      } else {
        NoLockKeepsHeld(a, false, Ends(false));
        NoLockKeepsHeld(a, true, Ends(true));
        LockRelocks(b);
      }
    case Loop(b) =>
      LockRelocks(b);
    case Either(a, b) =>
      LockRelocks(if MayLock(a) then a else b);
  }

  /** No thread can step, yet not all have finished. */
  ghost predicate Deadlocked(s: State) {
    !s.Finished() && !CanStep(s)
  }

  ghost predicate CanDeadlock(program: Cmd, threads: nat) {
    exists t, n :: Reaches(Initial(program, threads), t, n) && Deadlocked(t)
  }

  lemma {:induction false} RelockDeadlocks(program: Cmd)
    requires Can(program, false, Relocks)
    ensures CanDeadlock(program, 1)
  {
    var n, rest := ProgramRuns(program, Relocks);
    var t := Shows(Initial(program, 1), 0, Relocks, rest);
    assert t.todo[0] == [Lock] + rest;
    assert Deadlocked(t);
  }

  /** Holding the mutex around a call can deadlock if and only if the callee may lock: then
      one thread alone gets stuck, and otherwise no number of threads ever does. */
  lemma {:induction false} OuterLockRule(callee: Cmd, threads: nat)
    requires Disciplined(callee) && threads > 0
    ensures MayLock(callee) ==> CanDeadlock(Guarded(callee), 1)
    ensures !MayLock(callee) ==> !CanDeadlock(Guarded(callee), threads)
  {
    if MayLock(callee) {
      LockRelocks(callee);
      assert Can(Lock, false, Ends(true)) && Can(Then(callee, Unlock), true, Relocks);
      RelockDeadlocks(Guarded(callee));
    } else {
      GuardedIsDisciplined(callee);
      forall t, n | Reaches(Initial(Guarded(callee), threads), t, n)
        ensures !Deadlocked(t)
      {
        DisciplineIsSafe(Guarded(callee), threads, t, n);
      }
    }
  }

  lemma {:induction false} GuardedIsDisciplined(c: Cmd)
    requires !MayLock(c) && !Can(c, false, Foreign)
    ensures Disciplined(Guarded(c))
  {
    forall o
      ensures Can(Guarded(c), false, o) <==> o == Ends(false)
    {
      NoLockKeepsHeld(c, true, o);
      NoLockKeepsHeld(c, true, Ends(true));
      NoLockKeepsHeld(c, true, Ends(false));
      assert Can(Then(c, Unlock), true, o) <==> o == Ends(false);
    }
  }

  // ---------------------------------------------------------------------------
  // send_vector with the outer lock that the source has commented out
  // ---------------------------------------------------------------------------

  const OUTER_BODY := Chain([Local, CALCULAT_WORK_TIME, GET_TOTAL_STRING, INT_TO_STRING, Local])

  const OUTER_DEPARTURE := Chain([Guarded(OUTER_BODY), Local, Guarded(Local), Local])

  const SEND_VECTOR_OUTER :=
    Chain([Local, GET_STRING, GET_TIME, Local, FIND_ID, Either(OUTER_DEPARTURE, RECORD_ARRIVAL), Local])

  /** Entered with the mutex, no path comes to anything but a relock. */
  predicate Blocks(c: Cmd) {
    !Can(c, true, Ends(false)) && !Can(c, true, Ends(true)) && !Can(c, true, Foreign) && !Can(c, true, Bare)
  }

  /** Part `k` blocks, and the parts before it leave the mutex alone. */
  lemma {:induction false} ChainBlocks(cs: seq<Cmd>, k: nat)
    requires k < |cs| && Blocks(cs[k])
    requires forall i | 0 <= i < k :: !MayLock(cs[i]) && !Can(cs[i], false, Foreign)
    ensures Blocks(Chain(cs))
    decreases k
  {
    if k > 0 {
      forall o
        ensures Can(cs[0], true, o) <==> o == Ends(true)
      {
        NoLockKeepsHeld(cs[0], true, o);
      }
      ChainBlocks(cs[1..], k - 1);
    }
  }

  lemma {:induction false} ChainMayLock(cs: seq<Cmd>)
    ensures MayLock(Chain(cs)) <==> exists i :: 0 <= i < |cs| && MayLock(cs[i])
  {
    if cs != [] {
      ChainMayLock(cs[1..]);
      assert forall i | 1 <= i < |cs| :: cs[i] == cs[1..][i - 1];
    }
  }

  lemma {:induction false} ChainIsOwned(cs: seq<Cmd>)
    requires forall i | 0 <= i < |cs| :: Owned(cs[i])
    ensures Owned(Chain(cs))
  {
    if cs != [] {
      ChainIsOwned(cs[1..]);
    }
  }

  /** Part `k` can come to `o`, and the parts before it always end. */
  lemma {:induction false} ChainComesTo(cs: seq<Cmd>, k: nat, o: Outcome)
    requires k < |cs| && Can(cs[k], false, o) && !o.Ends?
    requires forall i | 0 <= i < k :: Disciplined(cs[i])
    ensures Can(Chain(cs), false, o)
    decreases k
  {
    if k > 0 {
      var p := SomeOutcome(cs[0], false);
      assert Disciplined(cs[0]) && p == Ends(false);
      ChainComesTo(cs[1..], k - 1, o);
    }
  }

  lemma {:induction false} CalculatWorkTimeNeverLocks()
    ensures !MayLock(CALCULAT_WORK_TIME)
  {
    ChainMayLock([Local, Either(Local, Local), Either(Local, Local), Local]);
  }

  /** Work that leaves the mutex alone, then printing that locks, all inside the outer lock. */
  lemma {:induction false} PrintingRelocks(work: Cmd, line: Cmd, time: Cmd)
    requires Disciplined(work) && Disciplined(line) && Disciplined(time)
    requires !MayLock(work) && MayLock(line) && Blocks(line)
    ensures var c := Chain([Local, work, line, time, Local]); Blocks(c) && Can(c, true, Relocks)
  {
    var parts := [Local, work, line, time, Local];
    ChainBlocks(parts, 2);
    assert MayLock(parts[2]);
    ChainMayLock(parts);
    ChainIsDisciplined(parts);
    LockRelocks(Chain(parts));
  }

  lemma {:induction false} GetTotalStringBlocks()
    ensures MayLock(GET_TOTAL_STRING) && Blocks(GET_TOTAL_STRING)
  {
    var parts := [Local, Guarded(Local), Local];
    assert MayLock(parts[1]) && Blocks(parts[1]);
    ChainMayLock(parts);
    ChainBlocks(parts, 1);
  }

  lemma {:induction false} OuterBodyBlocks()
    ensures Blocks(OUTER_BODY) && Can(OUTER_BODY, true, Relocks)
  {
    PartsAreDisciplined();
    CalculatWorkTimeNeverLocks();
    GetTotalStringBlocks();
    PrintingRelocks(CALCULAT_WORK_TIME, GET_TOTAL_STRING, INT_TO_STRING);
  }

  /** With or without the mutex, the departure branch with the outer lock comes to a relock
      and to nothing else. */
  lemma {:induction false} OuterDepartureOnlyRelocks(held: bool, o: Outcome)
    ensures Can(OUTER_DEPARTURE, held, o) <==> o == Relocks
  {
    OuterBodyBlocks();
    var first, rest := Guarded(OUTER_BODY), [Local, Guarded(Local), Local];
    assert OUTER_DEPARTURE == Then(first, Chain(rest)) by {
      assert ([first] + rest)[1..] == rest;
      assert [first] + rest == [first, Local, Guarded(Local), Local];
    }
    GuardedOnlyRelocks(OUTER_BODY, held, o);
    GuardedOnlyRelocks(OUTER_BODY, held, Ends(held));
    GuardedOnlyRelocks(OUTER_BODY, held, Ends(!held));
  }

  lemma {:induction false} GuardedOnlyRelocks(c: Cmd, held: bool, o: Outcome)
    requires Blocks(c) && Can(c, true, Relocks)
    ensures Can(Guarded(c), held, o) <==> o == Relocks
  {
    assert forall p :: Can(Then(c, Unlock), true, p) <==> p == Relocks;
  }

  lemma {:induction false} SixthComesTo(a: Cmd, b: Cmd, c: Cmd, d: Cmd, e: Cmd, f: Cmd, g: Cmd, o: Outcome)
    requires Disciplined(a) && Disciplined(b) && Disciplined(c) && Disciplined(d) && Disciplined(e)
    requires Owned(f) && Can(f, false, o) && !o.Ends? && Disciplined(g)
    ensures var all := Chain([a, b, c, d, e, f, g]); Owned(all) && Can(all, false, o)
  {
    ChainIsOwned([a, b, c, d, e, f, g]);
    ChainComesTo([a, b, c, d, e, f, g], 5, o);
  }

  lemma {:induction false} OuterVectorIsOwned()
    ensures Owned(SEND_VECTOR_OUTER) && Can(SEND_VECTOR_OUTER, false, Relocks)
  {
    PartsAreDisciplined();
    OuterDepartureOnlyRelocks(false, Relocks);
    OuterDepartureOnlyRelocks(false, Foreign);
    OuterDepartureOnlyRelocks(false, Ends(true));
    SixthComesTo(
      Local, GET_STRING, GET_TIME, Local, FIND_ID, Either(OUTER_DEPARTURE, RECORD_ARRIVAL), Local, Relocks);
  }

  /** With the outer lock, one thread alone can get stuck. */
  lemma {:induction false} CommentedOutLockDeadlocks()
    ensures CanDeadlock(SEND_VECTOR_OUTER, 1)
  {
    OuterVectorIsOwned();
    RelockDeadlocks(SEND_VECTOR_OUTER);
  }

  /** And among any number of threads, under every interleaving: one that enters the departure
      branch never finishes. */
  lemma {:induction false} CommentedOutLockNeverFinishes(threads: nat, s: State, m: nat, i: nat, t: State, n: nat)
    requires Reaches(Initial(SEND_VECTOR_OUTER, threads), s, m)
    requires i < |s.todo| && s.todo[i] != [] && s.todo[i][0] == OUTER_DEPARTURE
    requires Reaches(s, t, n)
    ensures i < |t.todo| && t.todo[i] != []
  {
    OuterVectorIsOwned();
    InitialInv(SEND_VECTOR_OUTER, threads);
    ReachedNarrows(Initial(SEND_VECTOR_OUTER, threads), s, m);
    ReachedNarrows(s, t, n);
    var held := s.depth[i] == 1;
    OuterDepartureOnlyRelocks(held, Ends(false));
    OuterDepartureOnlyRelocks(held, Ends(true));
    assert !ThreadCan(s, i, Ends(false)) && !ThreadCan(s, i, Ends(true));
    assert !ThreadCan(t, i, Ends(false)) && !ThreadCan(t, i, Ends(true));
  }

  // ---------------------------------------------------------------------------
  // The departure branch, when its writes to the stored record count as updates
  // ---------------------------------------------------------------------------

  const WRITING_DEPARTURE :=
    Chain([Update, CALCULAT_WORK_TIME, GET_TOTAL_STRING, INT_TO_STRING, Local, Guarded(Local), Local])

  const SEND_VECTOR_WRITING :=
    Chain([Local, GET_STRING, GET_TIME, Local, FIND_ID, Either(WRITING_DEPARTURE, RECORD_ARRIVAL), Local])

  lemma {:induction false} WritingDepartureIsBare()
    ensures Owned(WRITING_DEPARTURE) && Can(WRITING_DEPARTURE, false, Bare)
  {
    PartsAreDisciplined();
    FirstIsBare(CALCULAT_WORK_TIME, GET_TOTAL_STRING, INT_TO_STRING, Local, Guarded(Local), Local);
  }

  lemma {:induction false} FirstIsBare(b: Cmd, c: Cmd, d: Cmd, e: Cmd, f: Cmd, g: Cmd)
    requires Disciplined(b) && Disciplined(c) && Disciplined(d) && Disciplined(e) && Disciplined(f) && Disciplined(g)
    ensures var all := Chain([Update, b, c, d, e, f, g]); Owned(all) && Can(all, false, Bare)
  {
    ChainIsOwned([Update, b, c, d, e, f, g]);
    ChainComesTo([Update, b, c, d, e, f, g], 0, Bare);
  }

  ghost predicate CanUpdateBare(program: Cmd, threads: nat) {
    exists t: State, n ::
      Reaches(Initial(program, threads), t, n) && t.WellFormed() && !UpdatesOnlyHolding(t)
  }

  lemma {:induction false} BareIsReached(program: Cmd)
    requires Can(program, false, Bare)
    ensures CanUpdateBare(program, 1)
  {
    var n, rest := ProgramRuns(program, Bare);
    var t := Shows(Initial(program, 1), 0, Bare, rest);
    assert t.todo[0] == [Update] + rest && t.depth[0] == 0;
    assert t.WellFormed() && !UpdatesOnlyHolding(t);
  }

  /** The code guards the length of the vector but not its records: a thread can be about to write
      the departure into a stored record without the mutex. */
  lemma {:induction false} RecordsAreWrittenBare()
    ensures CanUpdateBare(SEND_VECTOR_WRITING, 1)
  {
    PartsAreDisciplined();
    WritingDepartureIsBare();
    SixthComesTo(
      Local, GET_STRING, GET_TIME, Local, FIND_ID, Either(WRITING_DEPARTURE, RECORD_ARRIVAL), Local, Bare);
    BareIsReached(SEND_VECTOR_WRITING);
  }
}
