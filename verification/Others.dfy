/** What the other threads do to the shared database in between: any critical sections, in any order. */
module Others {
  import opened Types
  import opened TupleSpace
  import opened Database

  // One critical section of another thread.
  datatype Deed =
    // informWaitingThreads
    | Offers(tuple: Tuple)
    // The insertion of addTupleToDB.
    | Stores(tuple: Tuple)
    // findTuple
    | Searches(pattern: seq<Pattern>)
    // findTupleAndRemoveIt
    | Takes(pattern: seq<Pattern>)
    // waitForTuple
    | Waits(request: Request)

  function Happen(s: Space, d: Deed): Space {
    match d
    case Offers(x) => s.(waiting := Remaining(s.waiting, Served(s.waiting, x)))
    case Stores(x) => if Holding(s.store, x) then s else s.(store := s.store + [x])
    case Searches(_) => s
    case Takes(p) => s.(store := WithoutFirstMatch(s.store, p))
    case Waits(r) => s.(waiting := s.waiting + [r])
  }

  // Where a thread is: not waiting, in the queue, or served and about to resume.
  datatype Place = Away | At(i: nat) | Passed(tuple: Tuple)

  function Move(s: Space, pl: Place, d: Deed): Place {
    if pl.At? && pl.i < |s.waiting| && d.Offers? then
      if ServedAt(s.waiting, d.tuple, pl.i) then Passed(d.tuple)
      else At(CountUnmarked(Served(s.waiting, d.tuple), pl.i))
    else pl
  }

  function HappenAll(s: Space, deeds: seq<Deed>): Space
    decreases |deeds|
  {
    if deeds == [] then s else HappenAll(Happen(s, deeds[0]), deeds[1..])
  }

  function MoveAll(s: Space, pl: Place, deeds: seq<Deed>): Place
    decreases |deeds|
  {
    if deeds == [] then pl else MoveAll(Happen(s, deeds[0]), Move(s, pl, deeds[0]), deeds[1..])
  }

  // ---- A command among the others ----------------------------------------------------

  // What the others do between the two critical sections of a command, and after it.
  datatype Turn = Turn(between: seq<Deed>, after: seq<Deed>)

  // Where a command stands behind its first critical section: answered, or with a second to come.
  datatype Half = Answered(tuple: Tuple) | ToInsert(tuple: Tuple) | ToEnqueue(request: Request)

  function Found(x: Option<Tuple>, r: Request): Half {
    if x.Some? && x.value != [] then Answered(x.value) else ToEnqueue(r)
  }

  function Begin(s: Space, cmd: Command): (Space, Half) {
    match cmd
    case Write(x) =>
      (Happen(s, Offers(x)), if FirstTaker(s.waiting, x) < |s.waiting| then Answered([]) else ToInsert(x))
    case Read(p) => (s, Found(FirstMatch(s.store, p), Request(p, false)))
    case Input(p) => (Happen(s, Takes(p)), Found(FirstMatch(s.store, p), Request(p, true)))
  }

  function Complete(s: Space, half: Half): (Space, Option<Tuple>) {
    match half
    case Answered(x) => (s, Some(x))
    case ToInsert(x) => (Happen(s, Stores(x)), Some([]))
    case ToEnqueue(r) => (Happen(s, Waits(r)), None)
  }

  // Both critical sections.
  function PerformAround(s: Space, cmd: Command, between: seq<Deed>): (Space, Option<Tuple>) {
    var (s1, half) := Begin(s, cmd);
    Complete(HappenAll(s1, between), half)
  }

  // The thread that queued itself last.
  function Newest(s: Space): Place {
    At(if s.waiting == [] then 0 else |s.waiting| - 1)
  }

  // A command while the others do their deeds: a thread that has to wait is answered if one of them
  // serves it.
  function PerformAmong(s: Space, cmd: Command, turn: Turn): (Space, Option<Tuple>) {
    var (s1, answer) := PerformAround(s, cmd, turn.between);
    var s2 := HappenAll(s1, turn.after);
    if answer.Some? then (s2, answer)
    else
      var pl := MoveAll(s1, Newest(s1), turn.after);
      (s2, if pl.Passed? then Some(pl.tuple) else None)
  }

  /** With nothing in between, the two critical sections are the command. */
  lemma UndisturbedIsPerform(s: Space, cmd: Command)
    ensures PerformAround(s, cmd, []) == Perform(s, cmd)
  {
  }

  // ---- Deeds in between moved out of the way -----------------------------------------

  // Offers and waits concern the queue only, the other deeds the database only.
  predicate OnQueue(d: Deed) {
    d.Offers? || d.Waits?
  }

  // The deeds that concern the queue, or those that do not, in order.
  function Only(deeds: seq<Deed>, queue: bool): seq<Deed> {
    if deeds == [] then []
    else if OnQueue(deeds[0]) == queue then [deeds[0]] + Only(deeds[1..], queue)
    else Only(deeds[1..], queue)
  }

  lemma {:induction false} QueueAndDatabase(s: Space, deeds: seq<Deed>)
    ensures HappenAll(s, deeds) ==
            Space(HappenAll(s, Only(deeds, false)).store, HappenAll(s, Only(deeds, true)).waiting)
    ensures HappenAll(s, Only(deeds, false)).waiting == s.waiting && HappenAll(s, Only(deeds, true)).store == s.store
    decreases |deeds|
  {
    if deeds != [] {
      var s1, more := Happen(s, deeds[0]), deeds[1..];
      QueueAndDatabase(s1, more);
      if OnQueue(deeds[0]) {
        FirstDeed(s, deeds[0], Only(more, true));
        DatabaseAlone(s, s1, more);
      } else {
        FirstDeed(s, deeds[0], Only(more, false));
        QueueAlone(s, s1, more);
      }
    }
  }

  lemma FirstDeed(s: Space, d: Deed, deeds: seq<Deed>)
    ensures HappenAll(s, [d] + deeds) == HappenAll(Happen(s, d), deeds)
  {
    assert ([d] + deeds)[1..] == deeds;
  }

  lemma {:induction false} DatabaseAlone(s: Space, t: Space, deeds: seq<Deed>)
    requires s.store == t.store
    ensures HappenAll(s, Only(deeds, false)).store == HappenAll(t, Only(deeds, false)).store
    ensures HappenAll(s, Only(deeds, false)).waiting == s.waiting
    decreases |deeds|
  {
    if deeds != [] {
      var d, more := deeds[0], deeds[1..];
      if OnQueue(d) {
        DatabaseAlone(s, t, more);
      } else {
        DatabaseAlone(Happen(s, d), Happen(t, d), more);
        FirstDeed(s, d, Only(more, false));
        FirstDeed(t, d, Only(more, false));
      }
    }
  }

  lemma {:induction false} QueueAlone(s: Space, t: Space, deeds: seq<Deed>)
    requires s.waiting == t.waiting
    ensures HappenAll(s, Only(deeds, true)).waiting == HappenAll(t, Only(deeds, true)).waiting
    ensures HappenAll(s, Only(deeds, true)).store == s.store
    decreases |deeds|
  {
    if deeds != [] {
      var d, more := deeds[0], deeds[1..];
      if OnQueue(d) {
        QueueAlone(Happen(s, d), Happen(t, d), more);
        FirstDeed(s, d, Only(more, true));
        FirstDeed(t, d, Only(more, true));
      } else {
        QueueAlone(s, t, more);
      }
    }
  }

  // Where the deeds between the critical sections of a command could have stood: a write touches the
  // queue first and the database then, a read or input the other way round.
  function MovedBefore(cmd: Command, between: seq<Deed>): seq<Deed> {
    Only(between, !cmd.Write?)
  }

  function MovedBehind(cmd: Command, between: seq<Deed>): seq<Deed> {
    Only(between, cmd.Write?)
  }

  // A read or input: its search concerns the database, its waiting the queue.
  lemma RequestMovesAway(s: Space, cmd: Command, between: seq<Deed>)
    requires !cmd.Write?
    ensures var (s1, half) := Begin(HappenAll(s, Only(between, true)), cmd);
      && half == Begin(s, cmd).1
      && HappenAll(Begin(s, cmd).0, between) == HappenAll(s1, Only(between, false))
  {
    var h, s0 := Begin(s, cmd).0, HappenAll(s, Only(between, true));
    QueueAndDatabase(s, between);
    QueueAndDatabase(h, between);
    QueueAlone(s, h, between);
    DatabaseAlone(Begin(s0, cmd).0, h, between);
  }

  // A write: its offer concerns the queue, its insertion the database.
  lemma WriteMovesAway(s: Space, x: Tuple, between: seq<Deed>)
    ensures var (s1, half) := Begin(HappenAll(s, Only(between, false)), Write(x));
      && half == Begin(s, Write(x)).1
      && HappenAll(Begin(s, Write(x)).0, between) == HappenAll(s1, Only(between, true))
  {
    var h, s0 := Begin(s, Write(x)).0, HappenAll(s, Only(between, false));
    QueueAndDatabase(s, between);
    QueueAndDatabase(h, between);
    DatabaseAlone(s, h, between);
    QueueAlone(Begin(s0, Write(x)).0, h, between);
  }

  // The second critical section and deeds on the other half of the space can change places.
  lemma CompleteEarlier(s: Space, half: Half, between: seq<Deed>)
    ensures half.ToEnqueue? || half.Answered? ==>
      var (s1, answer) := Complete(s, half);
      Complete(HappenAll(s, Only(between, false)), half) == (HappenAll(s1, Only(between, false)), answer)
    ensures half.ToInsert? || half.Answered? ==>
      var (s1, answer) := Complete(s, half);
      Complete(HappenAll(s, Only(between, true)), half) == (HappenAll(s1, Only(between, true)), answer)
  {
    var s1 := Complete(s, half).0;
    QueueAndDatabase(s, between);
    QueueAndDatabase(s1, between);
    if half.ToEnqueue? {
      DatabaseAlone(s, s1, between);
      SameSpace(HappenAll(s1, Only(between, false)), Happen(HappenAll(s, Only(between, false)), Waits(half.request)));
    } else if half.ToInsert? {
      QueueAlone(s, s1, between);
      SameSpace(HappenAll(s1, Only(between, true)), Happen(HappenAll(s, Only(between, true)), Stores(half.tuple)));
    }
  }

  lemma SameSpace(a: Space, b: Space)
    requires a.store == b.store && a.waiting == b.waiting
    ensures a == b
  {
  }

  /** What others do between the critical sections of a command might as well have been done before
      or behind it: nobody can tell from database, queue and answer. */
  lemma BetweenMovesAway(s: Space, cmd: Command, between: seq<Deed>)
    ensures var (s1, answer) := Perform(HappenAll(s, MovedBefore(cmd, between)), cmd);
      PerformAround(s, cmd, between) == (HappenAll(s1, MovedBehind(cmd, between)), answer)
  {
    var s0 := HappenAll(s, MovedBefore(cmd, between));
    UndisturbedIsPerform(s0, cmd);
    var (s1, half) := Begin(s0, cmd);
    CompleteEarlier(s1, half, between);
    if cmd.Write? {
      WriteMovesAway(s, cmd.tuple, between);
    } else {
      RequestMovesAway(s, cmd, between);
    }
  }

  lemma {:induction false} HappenAppend(s: Space, a: seq<Deed>, b: seq<Deed>)
    ensures HappenAll(s, a + b) == HappenAll(HappenAll(s, a), b)
    decreases |a|
  {
    if a == [] {
      assert a + b == b;
    } else {
      assert (a + b)[0] == a[0] && (a + b)[1..] == a[1..] + b;
      HappenAppend(Happen(s, a[0]), a[1..], b);
    }
  }

  // Deeds on the database wake nobody.
  lemma {:induction false} NobodyMoves(s: Space, pl: Place, between: seq<Deed>, after: seq<Deed>)
    ensures MoveAll(s, pl, Only(between, false) + after) == MoveAll(HappenAll(s, Only(between, false)), pl, after)
    decreases |between|
  {
    if between == [] {
      assert [] + after == after;
    } else {
      var d, more := between[0], Only(between[1..], false);
      if OnQueue(d) {
        NobodyMoves(s, pl, between[1..], after);
      } else {
        NobodyMoves(Happen(s, d), pl, between[1..], after);
        FirstDeed(s, d, more);
        assert ([d] + more + after)[0] == d && ([d] + more + after)[1..] == more + after;
      }
    }
  }

  /** The same with waking: a command disturbed in its middle is an undisturbed one, among others that
      act before and behind it. */
  lemma DisturbedIsUndisturbed(s: Space, cmd: Command, turn: Turn)
    ensures PerformAmong(s, cmd, turn) ==
            PerformAmong(HappenAll(s, MovedBefore(cmd, turn.between)), cmd,
                         Turn([], MovedBehind(cmd, turn.between) + turn.after))
  {
    var s0, behind := HappenAll(s, MovedBefore(cmd, turn.between)), MovedBehind(cmd, turn.between);
    BetweenMovesAway(s, cmd, turn.between);
    UndisturbedIsPerform(s0, cmd);
    var (s1, answer) := Perform(s0, cmd);
    HappenAppend(s1, behind, turn.after);
    if answer.None? {
      QueueAndDatabase(s1, turn.between);
      NobodyMoves(s1, Newest(s1), turn.between, turn.after);
    }
  }

  // What the others do during one command, and during the later ones; when no more is given they rest.
  function Next(others: seq<Turn>): Turn {
    if others == [] then Turn([], []) else others[0]
  }

  function Later(others: seq<Turn>): seq<Turn> {
    if others == [] then [] else others[1..]
  }

  // The commands up to the first that waits in vain, and their answers.
  function PerformAll(s: Space, cmds: seq<Command>, others: seq<Turn>): (Space, seq<Tuple>)
    decreases |cmds|
  {
    if cmds == [] then (s, [])
    else
      var (s1, answer) := PerformAmong(s, cmds[0], Next(others));
      if answer.None? then (s1, [])
      else
        var (s2, answers) := PerformAll(s1, cmds[1..], Later(others));
        (s2, [answer.value] + answers)
  }

  lemma {:induction false} AnswersAreAsMany(s: Space, cmds: seq<Command>, others: seq<Turn>)
    ensures |PerformAll(s, cmds, others).1| <= |cmds|
    decreases |cmds|
  {
    if cmds != [] {
      AnswersAreAsMany(PerformAmong(s, cmds[0], Next(others)).0, cmds[1..], Later(others));
    }
  }

  lemma RequestStays(s: Space, i: nat, d: Deed)
    requires i < |s.waiting|
    ensures var pl := Move(s, At(i), d);
      && (pl.At? ==> pl.i < |Happen(s, d).waiting| && Happen(s, d).waiting[pl.i] == s.waiting[i])
      && (pl.Passed? ==> MatchesTuple(s.waiting[i].pattern, pl.tuple) && d == Offers(pl.tuple))
  {
    if d.Offers? && !ServedAt(s.waiting, d.tuple, i) {
      UnmarkedAt(s.waiting, Served(s.waiting, d.tuple), |s.waiting|, i);
    }
  }

  /** Whoever is woken was passed a tuple that matches its request and that somebody offered. */
  lemma {:induction false} WokenIsMatched(s: Space, i: nat, deeds: seq<Deed>)
    requires i < |s.waiting|
    ensures var pl := MoveAll(s, At(i), deeds);
      pl.Passed? ==> MatchesTuple(s.waiting[i].pattern, pl.tuple) && Offers(pl.tuple) in deeds
    decreases |deeds|
  {
    if deeds != [] {
      var s1, pl := Happen(s, deeds[0]), Move(s, At(i), deeds[0]);
      RequestStays(s, i, deeds[0]);
      if pl.At? {
        WokenIsMatched(s1, pl.i, deeds[1..]);
      } else {
        PassedStays(s1, pl.tuple, deeds[1..]);
      }
    }
  }

  lemma {:induction false} PassedStays(s: Space, x: Tuple, deeds: seq<Deed>)
    ensures MoveAll(s, Passed(x), deeds) == Passed(x)
    decreases |deeds|
  {
    if deeds != [] {
      PassedStays(Happen(s, deeds[0]), x, deeds[1..]);
    }
  }

  // What can be answered to a command.
  predicate Suits(cmd: Command, x: Tuple) {
    match cmd
    case Write(_) => x == []
    case Read(p) => MatchesTuple(p, x)
    case Input(p) => MatchesTuple(p, x)
  }

  /** Every answer suits its command, at once or after waiting. */
  lemma AnswersSuit(s: Space, cmd: Command, turn: Turn)
    ensures PerformAmong(s, cmd, turn).1.Some? ==> Suits(cmd, PerformAmong(s, cmd, turn).1.value)
  {
    var (s1, answer) := PerformAround(s, cmd, turn.between);
    if answer.None? {
      WokenIsMatched(s1, |s1.waiting| - 1, turn.after);
    }
  }

  // me is where pl says.
  ghost predicate InPlace(db: ServerDB, me: AwaitingParams, pl: Place)
    reads db`waitingThreadsQueue, me`locked, me`passedTuple
  {
    match pl
    case Away => me !in db.waitingThreadsQueue
    case At(i) => i < |db.waitingThreadsQueue| && db.waitingThreadsQueue[i] == me
    case Passed(x) => me !in db.waitingThreadsQueue && !me.locked && me.passedTuple == x
  }

  // Of distinct entries exactly the marked ones leave.
  lemma Leaves<T>(q: seq<T>, marks: seq<bool>, x: T)
    requires |q| == |marks| && Distinct(q)
    ensures x !in q ==> x !in Remaining(q, marks)
    ensures forall i :: 0 <= i < |q| && q[i] == x && marks[i] ==> x !in Remaining(q, marks)
  {
    RemainingEntries(q, marks);
  }

  // Where an offer moves an entry of the queue.
  lemma MovedTo<T>(q: seq<T>, s: Space, me: T, pl: Place, x: Tuple)
    requires Distinct(q) && |q| == |s.waiting|
    requires if pl.At? then pl.i < |q| && q[pl.i] == me else me !in q
    ensures var pl1, q1 := Move(s, pl, Offers(x)), Remaining(q, Served(s.waiting, x));
      && (!pl.At? ==> pl1 == pl)
      && (pl.At? && ServedAt(s.waiting, x, pl.i) ==> pl1 == Passed(x))
      && (pl.At? && !ServedAt(s.waiting, x, pl.i) ==> pl1.At?)
      && if pl1.At? then pl1.i < |q1| && q1[pl1.i] == me else me !in q1
  {
    var marks := Served(s.waiting, x);
    Leaves(q, marks, me);
    if pl.At? && !ServedAt(s.waiting, x, pl.i) {
      UnmarkedAt(q, marks, |q|, pl.i);
    }
  }

  // An offer moves me, if I am queued, as Move says.
  method Offer(db: ServerDB, x: Tuple, ghost me: AwaitingParams, ghost pl: Place) returns (taken: bool)
    requires db.QueueOk() && InPlace(db, me, pl)
    modifies db`waitingThreadsQueue, db.Waiters()
    ensures db.QueueOk() && db.Waiters() <= old(db.Waiters())
    ensures db.Waiting() == Remaining(old(db.Waiting()), Served(old(db.Waiting()), x))
    ensures InPlace(db, me, Move(old(db.Abstract()), pl, Offers(x)))
    ensures taken <==> FirstTaker(old(db.Waiting()), x) < |old(db.Waiting())|
  {
    ghost var q, rs := db.waitingThreadsQueue, db.Waiting();
    MovedTo(q, db.Abstract(), me, pl, x);
    taken := db.InformWaitingThreads(x);
    assert pl.At? && ServedAt(rs, x, pl.i) ==> !q[pl.i].locked && q[pl.i].passedTuple == x;
  }

  method QueueUp(db: ServerDB, r: Request)
    requires db.QueueOk()
    modifies db`waitingThreadsQueue
    ensures db.QueueOk() && fresh(db.Waiters() - old(db.Waiters()))
    ensures |db.waitingThreadsQueue| > 0 && fresh(db.waitingThreadsQueue[|db.waitingThreadsQueue| - 1])
    ensures db.waitingThreadsQueue[..|db.waitingThreadsQueue| - 1] == old(db.waitingThreadsQueue)
    ensures db.Waiting() == old(db.Waiting()) + [r]
  {
    var p := new AwaitingParams();
    p.tuplePattern, p.isInput, p.locked := r.pattern, r.isInput, true;
    assert db.Waiting() == old(db.Waiting());
    db.Enqueue(p);
  }

  method Act(db: ServerDB, d: Deed, ghost me: AwaitingParams, ghost pl: Place)
    requires db.RowsOk() && db.QueueOk() && InPlace(db, me, pl)
    modifies db, db.Waiters()
    ensures db.RowsOk() && db.QueueOk() && fresh(db.Waiters() - old(db.Waiters()))
    ensures db.Abstract() == Happen(old(db.Abstract()), d)
    ensures InPlace(db, me, Move(old(db.Abstract()), pl, d))
  {
    match d {
      case Offers(x) => var taken := Offer(db, x, me, pl);
      case Stores(x) => var added := db.InsertBehindQueue(x);
      case Searches(p) => var found := db.FindTuple(p);
      case Takes(p) => var found := db.FindTupleAndRemoveIt(p);
      case Waits(r) => QueueUp(db, r);
    }
  }

  // i deeds have been done.
  ghost predicate Done(s0: Space, pl0: Place, deeds: seq<Deed>, i: nat, s: Space, pl: Place)
    requires i <= |deeds|
  {
    && HappenAll(s0, deeds) == HappenAll(s, deeds[i..])
    && MoveAll(s0, pl0, deeds) == MoveAll(s, pl, deeds[i..])
  }

  // The others run for a while; me is the thread that does not.
  method ActAll(db: ServerDB, deeds: seq<Deed>, ghost me: AwaitingParams, ghost pl0: Place)
    requires db.RowsOk() && db.QueueOk() && InPlace(db, me, pl0)
    modifies db, db.Waiters()
    ensures db.RowsOk() && db.QueueOk() && fresh(db.Waiters() - old(db.Waiters()))
    ensures db.Abstract() == HappenAll(old(db.Abstract()), deeds)
    ensures InPlace(db, me, MoveAll(old(db.Abstract()), pl0, deeds))
  {
    ghost var s0, pl := db.Abstract(), pl0;
    assert deeds[0..] == deeds;
    for i := 0 to |deeds|
      invariant db.RowsOk() && db.QueueOk() && fresh(db.Waiters() - old(db.Waiters()))
      invariant InPlace(db, me, pl) && Done(s0, pl0, deeds, i, db.Abstract(), pl)
    {
      ghost var s := db.Abstract();
      Act(db, deeds[i], me, pl);
      pl := Move(s, pl, deeds[i]);
    }
  }

  // addTupleToDB with others in between its critical sections.
  method AddAmong(db: ServerDB, x: Tuple, between: seq<Deed>, ghost me: AwaitingParams)
    returns (accepted: bool)
    requires db.RowsOk() && db.QueueOk() && me !in db.waitingThreadsQueue
    modifies db, db.Waiters()
    ensures db.RowsOk() && db.QueueOk() && fresh(db.Waiters() - old(db.Waiters()))
    ensures me !in db.waitingThreadsQueue
    ensures (db.Abstract(), Some([])) == PerformAround(old(db.Abstract()), Write(x), between)
  {
    ghost var s := db.Abstract();
    var taken := Offer(db, x, me, Away);
    ghost var half := Begin(s, Write(x)).1;
    assert db.Abstract() == Begin(s, Write(x)).0 && half == if taken then Answered([]) else ToInsert(x);
    ActAll(db, between, me, Away);
    if taken {
      return true;
    }
    accepted := db.InsertBehindQueue(x);
  }

  // What handleRead and handleInput make of the tuple they found: none is the empty one.
  function HalfOf(tuple: Tuple, pattern: seq<Pattern>, isInput: bool): Half {
    if tuple != [] then Answered(tuple) else ToEnqueue(Request(pattern, isInput))
  }

  lemma SearchBegins(s: Space, cmd: Command, pattern: seq<Pattern>, tuple: Tuple)
    requires cmd == Read(pattern) || cmd == Input(pattern)
    requires tuple == if FirstMatch(s.store, pattern).Some? then FirstMatch(s.store, pattern).value else []
    ensures Begin(s, cmd) ==
            (if cmd.Input? then s.(store := WithoutFirstMatch(s.store, pattern)) else s,
             HalfOf(tuple, pattern, cmd.Input?))
  {
  }

  function CommandFor(r: Request): Command {
    if r.isInput then Input(r.pattern) else Read(r.pattern)
  }

  // findTuple or findTupleAndRemoveIt, and what others do before the thread goes on.
  method SearchAmong(db: ServerDB, pattern: seq<Pattern>, isInput: bool, between: seq<Deed>, ghost me: AwaitingParams)
    returns (tuple: Tuple)
    requires db.RowsOk() && db.QueueOk() && me !in db.waitingThreadsQueue
    modifies db, db.Waiters()
    ensures db.RowsOk() && db.QueueOk() && fresh(db.Waiters() - old(db.Waiters()))
    ensures me !in db.waitingThreadsQueue
    ensures var (s1, half) := Begin(old(db.Abstract()), CommandFor(Request(pattern, isInput)));
      half == HalfOf(tuple, pattern, isInput) && db.Abstract() == HappenAll(s1, between)
  {
    ghost var s := db.Abstract();
    if isInput {
      tuple := db.FindTupleAndRemoveIt(pattern);
    } else {
      tuple := db.FindTuple(pattern);
    }
    SearchBegins(s, CommandFor(Request(pattern, isInput)), pattern, tuple);
    assert db.Abstract() == Begin(s, CommandFor(Request(pattern, isInput))).0;
    ActAll(db, between, me, Away);
  }
}
