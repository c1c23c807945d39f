/** The critical sections of ServerDB carry out the steps of the interleaving model: as long as the
    objects represent a state, each method takes them to the state after its step. */
module Refinement {
  import opened Types
  import opened TupleSpace
  import opened Interleaving
  import opened Runs
  import opened Database

  // The AwaitingParams of thread th.
  ghost predicate ParamsOk(p: AwaitingParams, th: Thread)
    reads p
  {
    && p.locked == th.locked
    && (!th.locked ==> p.passedTuple == th.passed)
    && (th.phase.Waiting? ==> p.Wanted() == th.request)
  }

  // `who` tells whose parameters are whose.
  ghost predicate Params(who: map<Tid, AwaitingParams>, s: State)
    reads who.Values
  {
    && (forall t :: t in s.threads ==> t in who && ParamsOk(who[t], s.threads[t]))
    && (forall t, u :: t in who && u in who && t != u ==> who[t] != who[u])
  }

  ghost predicate Queues(db: ServerDB, who: map<Tid, AwaitingParams>, s: State)
    reads db`waitingThreadsQueue
  {
    && |db.waitingThreadsQueue| == |s.queue|
    && (forall i :: 0 <= i < |s.queue| ==> s.queue[i] in who && db.waitingThreadsQueue[i] == who[s.queue[i]])
  }

  ghost predicate Stored(db: ServerDB, s: State)
    reads db`records, db`contents
  {
    db.RowsOk() && |s.stamps| == |s.store| && db.contents == s.store
  }

  ghost predicate Waits(db: ServerDB, who: map<Tid, AwaitingParams>, s: State)
    reads db`waitingThreadsQueue, db.waitingThreadsQueue, who.Values
  {
    db.QueueOk() && TokensOk(s) && Queues(db, who, s) && Params(who, s)
  }

  ghost predicate Represents(db: ServerDB, who: map<Tid, AwaitingParams>, s: State)
    reads db, db.waitingThreadsQueue, who.Values
  {
    Stored(db, s) && Waits(db, who, s)
  }

  // What the search step makes of the database.
  lemma SearchStore(s: State, t: Tid, r: Request, now: nat)
    requires Enabled(s, Search(t, r)) && |s.stamps| == |s.store|
    ensures SearchStep(s, t, r, now).store == if r.isInput then WithoutFirstMatch(s.store, r.pattern) else s.store
    ensures SearchStep(s, t, r, now).queue == s.queue
    ensures OutcomeOf(s, Search(t, r)) ==
            match FirstMatch(s.store, r.pattern)
            case Some(x) => if x != [] then Found(r.isInput, x) else Silent
            case None => Silent
  {
  }

  // handleRead looks the tuple up, handleInput takes it.
  method FindFor(db: ServerDB, r: Request) returns (tuple: Tuple)
    requires db.RowsOk()
    modifies db`records, db`contents
    ensures db.RowsOk()
    ensures db.contents == if r.isInput then WithoutFirstMatch(old(db.contents), r.pattern) else old(db.contents)
    ensures tuple == var x := FirstMatch(old(db.contents), r.pattern); if x.Some? then x.value else []
  {
    if r.isInput {
      tuple := db.FindTupleAndRemoveIt(r.pattern);
    } else {
      tuple := db.FindTuple(r.pattern);
    }
  }

  method SearchDatabase(db: ServerDB, ghost who: map<Tid, AwaitingParams>, ghost s: State, ghost t: Tid,
                        r: Request, ghost now: nat)
    returns (tuple: Tuple)
    requires Represents(db, who, s) && Enabled(s, Search(t, r))
    modifies db`records, db`contents
    ensures Represents(db, who, Apply(s, Search(t, r), now))
    ensures OutcomeOf(s, Search(t, r)) == if tuple != [] then Found(r.isInput, tuple) else Silent
  {
    SearchStore(s, t, r, now);
    StepKeepsTokens(s, Search(t, r), now);
    tuple := FindFor(db, r);
  }

  // handleRead and handleInput set their request, then waitForTuple queues it.
  method EnqueueParams(db: ServerDB, ghost who: map<Tid, AwaitingParams>, ghost s: State, ghost t: Tid,
                       p: AwaitingParams, r: Request, ghost now: nat)
    requires Represents(db, who, s) && Enabled(s, Enqueue(t)) && p == who[t] && r == s.threads[t].request
    modifies db`waitingThreadsQueue, p`tuplePattern, p`isInput
    ensures Represents(db, who, Apply(s, Enqueue(t), now))
  {
    assert TokenOk(s, t) && ParamsOk(who[t], s.threads[t]);
    NotQueued(db, who, s, t);
    StepKeepsTokens(s, Enqueue(t), now);
    p.tuplePattern := r.pattern;
    p.isInput := r.isInput;
    db.Enqueue(p);
    ghost var s1 := Apply(s, Enqueue(t), now);
    forall u | u in s1.threads ensures ParamsOk(who[u], s1.threads[u]) {
      assert ParamsOk(who[u], s.threads[u]) || u == t;
    }
  }

  // Whoever is not in the queue of threads has no parameters in the queue of parameters.
  lemma NotQueued(db: ServerDB, who: map<Tid, AwaitingParams>, s: State, t: Tid)
    requires Queues(db, who, s) && Params(who, s) && t in who && !Queued(s, t)
    ensures who[t] !in db.waitingThreadsQueue
  {
  }

  // The queued requests are those of the threads.
  lemma SameRequests(db: ServerDB, who: map<Tid, AwaitingParams>, s: State)
    requires Waits(db, who, s)
    ensures db.Waiting() == Requests(s)
  {
    forall i | 0 <= i < |s.queue| ensures db.Waiting()[i] == Requests(s)[i] {
      assert Queued(s, s.queue[i]) && TokenOk(s, s.queue[i]);
    }
  }

  lemma InformedQueue(q: seq<AwaitingParams>, who: map<Tid, AwaitingParams>, s: State, x: Tuple)
    requires |q| == |s.queue| && forall i :: 0 <= i < |q| ==> s.queue[i] in who && q[i] == who[s.queue[i]]
    ensures var marks := Served(Requests(s), x);
      var q1, ts := Remaining(q, marks), Remaining(s.queue, marks);
      |q1| == |ts| && forall i :: 0 <= i < |ts| ==> ts[i] in who && q1[i] == who[ts[i]]
  {
    var marks := Served(Requests(s), x);
    UnmarkedLength(q, marks, |q|);
    UnmarkedLength(s.queue, marks, |q|);
    forall i | 0 <= i < |Remaining(s.queue, marks)|
      ensures Remaining(s.queue, marks)[i] in who && Remaining(q, marks)[i] == who[Remaining(s.queue, marks)[i]]
    {
      var j := RemainingParallel(s.queue, q, marks, i);
    }
  }

  // The i-th queued parameters have been offered the tuple.
  ghost predicate WasOffered(q: seq<AwaitingParams>, rs: seq<Request>, x: Tuple, i: int)
    requires 0 <= i < |q| == |rs|
    reads q
  {
    && q[i].Wanted() == rs[i]
    && q[i].locked == !ServedAt(rs, x, i)
    && (ServedAt(rs, x, i) ==> q[i].passedTuple == x)
  }

  lemma InformedThread(q: seq<AwaitingParams>, who: map<Tid, AwaitingParams>, s: State,
                       t: Tid, x: Tuple, now: nat, u: Tid)
    requires TokensOk(s) && Enabled(s, Inform(t, x)) && |q| == |s.queue| && u in s.threads && u in who
    requires forall i :: 0 <= i < |q| ==>
               s.queue[i] in who && q[i] == who[s.queue[i]] && WasOffered(q, Requests(s), x, i)
    requires !Queued(s, u) ==> ParamsOk(who[u], s.threads[u])
    ensures ParamsOk(who[u], InformStep(s, t, x, now).threads[u])
  {
    assert TokenOk(s, u) && TokenOk(s, t);
    if Queued(s, u) {
      var i :| 0 <= i < |q| && s.queue[i] == u;
      assert WasOffered(q, Requests(s), x, i);
      assert ServedBy(s, x, u) <==> ServedAt(Requests(s), x, i);
    } else {
      assert !ServedBy(s, x, u);
    }
  }

  // Every waiter was offered the tuple, and nobody else was touched.
  ghost predicate AllOffered(q: seq<AwaitingParams>, who: map<Tid, AwaitingParams>, s: State, x: Tuple)
    requires |q| == |s.queue|
    reads q, who.Values
  {
    && (forall i :: 0 <= i < |q| ==> s.queue[i] in who && q[i] == who[s.queue[i]] && WasOffered(q, Requests(s), x, i))
    && (forall u :: u in s.threads && !Queued(s, u) ==> u in who && ParamsOk(who[u], s.threads[u]))
  }

  lemma InformedParams(q: seq<AwaitingParams>, who: map<Tid, AwaitingParams>, s: State, t: Tid, x: Tuple, now: nat)
    requires TokensOk(s) && Enabled(s, Inform(t, x)) && |q| == |s.queue| && AllOffered(q, who, s, x)
    requires forall u :: u in s.threads ==> u in who
    requires forall u, v :: u in who && v in who && u != v ==> who[u] != who[v]
    ensures Params(who, InformStep(s, t, x, now))
  {
    forall u | u in s.threads ensures ParamsOk(who[u], InformStep(s, t, x, now).threads[u]) {
      InformedThread(q, who, s, t, x, now, u);
    }
  }

  method OfferToWaiters(db: ServerDB, ghost rs: seq<Request>, x: Tuple) returns (taken: bool)
    requires db.QueueOk() && rs == db.Waiting()
    modifies db`waitingThreadsQueue, db.waitingThreadsQueue
    ensures db.QueueOk() && taken == (FirstTaker(rs, x) < |rs|)
    ensures db.waitingThreadsQueue == Remaining(old(db.waitingThreadsQueue), Served(rs, x))
    ensures forall i :: 0 <= i < |rs| ==> WasOffered(old(db.waitingThreadsQueue), rs, x, i)
  {
    ghost var q := db.waitingThreadsQueue;
    taken := db.InformWaitingThreads(x);
    forall i | 0 <= i < |q| ensures WasOffered(q, rs, x, i) {
      assert q[i].Wanted() == rs[i];
    }
  }

  method OfferStep(db: ServerDB, ghost who: map<Tid, AwaitingParams>, ghost s: State, ghost t: Tid,
                   x: Tuple, ghost now: nat)
    returns (taken: bool)
    requires Waits(db, who, s) && Enabled(s, Inform(t, x))
    modifies db`waitingThreadsQueue, db.waitingThreadsQueue
    ensures Waits(db, who, InformStep(s, t, x, now)) && taken == TakenBy(s, x)
  {
    ghost var q := db.waitingThreadsQueue;
    InformKeepsTokens(s, t, x, now);
    InformedQueue(q, who, s, x);
    SameRequests(db, who, s);
    forall u | u in s.threads && !Queued(s, u) ensures who[u] !in q && ParamsOk(who[u], s.threads[u]) {
      NotQueued(db, who, s, u);
    }
    taken := OfferToWaiters(db, Requests(s), x);
    assert AllOffered(q, who, s, x);
    InformedParams(q, who, s, t, x, now);
  }

  method InformWaiters(db: ServerDB, ghost who: map<Tid, AwaitingParams>, ghost s: State, ghost t: Tid,
                       x: Tuple, ghost now: nat)
    returns (taken: bool)
    requires Represents(db, who, s) && Enabled(s, Inform(t, x))
    modifies db`waitingThreadsQueue, db.waitingThreadsQueue
    ensures Represents(db, who, Apply(s, Inform(t, x), now))
    ensures OutcomeOf(s, Inform(t, x)) == if taken then Wrote(x, true) else Silent
  {
    taken := OfferStep(db, who, s, t, x, now);
  }

  method InsertIntoDatabase(db: ServerDB, ghost who: map<Tid, AwaitingParams>, ghost s: State, ghost t: Tid,
                            x: Tuple, ghost now: nat)
    returns (added: bool)
    requires Represents(db, who, s) && Enabled(s, Insert(t)) && x == s.threads[t].phase.tuple
    modifies db`records, db`contents
    ensures Represents(db, who, Apply(s, Insert(t), now))
    ensures OutcomeOf(s, Insert(t)) == Wrote(x, added)
  {
    StepKeepsTokens(s, Insert(t), now);
    added := db.InsertTuple(x);
  }

  method ResumeThread(db: ServerDB, ghost who: map<Tid, AwaitingParams>, ghost s: State, ghost t: Tid,
                      p: AwaitingParams, ghost now: nat)
    returns (tuple: Tuple)
    requires Represents(db, who, s) && Enabled(s, Resume(t)) && p == who[t]
    modifies p`locked
    ensures Represents(db, who, Apply(s, Resume(t), now))
    ensures OutcomeOf(s, Resume(t)) == Found(s.threads[t].request.isInput, tuple)
  {
    assert TokenOk(s, t) && ParamsOk(p, s.threads[t]);
    NotQueued(db, who, s, t);
    StepKeepsTokens(s, Resume(t), now);
    tuple := ServerDB.Resume(p);
    ghost var s1 := Apply(s, Resume(t), now);
    forall u | u in s1.threads ensures ParamsOk(who[u], s1.threads[u]) {
      assert u != t ==> old(ParamsOk(who[u], s.threads[u]));
    }
  }

  // A new service thread locks its token.
  method SpawnThread(db: ServerDB, ghost who: map<Tid, AwaitingParams>, ghost s: State, ghost t: Tid,
                     ghost now: nat)
    returns (p: AwaitingParams)
    requires Represents(db, who, s) && Enabled(s, Spawn(t)) && t !in who
    ensures fresh(p) && Represents(db, who[t := p], Apply(s, Spawn(t), now))
  {
    StepKeepsTokens(s, Spawn(t), now);
    p := new AwaitingParams();
    p.locked := true;
  }

  // A thread that ends leaves its parameters behind, and they are not queued: nobody misses them.
  lemma ExitThread(db: ServerDB, who: map<Tid, AwaitingParams>, s: State, t: Tid, now: nat)
    requires Represents(db, who, s) && Enabled(s, Exit(t))
    ensures Represents(db, who, Apply(s, Exit(t), now))
    ensures Represents(db, who - {t}, Apply(s, Exit(t), now))
  {
    assert TokenOk(s, t);
    StepKeepsTokens(s, Exit(t), now);
    assert !Queued(s, t);
  }

  /** At the start the empty database represents the empty state. */
  method Start() returns (db: ServerDB)
    ensures fresh(db) && Represents(db, map[], EMPTY)
  {
    db := new ServerDB();
  }

  // ---- Whole runs --------------------------------------------------------------------

  // The waiters' parameters are the threads' own.
  lemma WaitersAreKnown(db: ServerDB, who: map<Tid, AwaitingParams>, s: State)
    requires Represents(db, who, s)
    ensures forall p :: p in db.waitingThreadsQueue ==> p in who.Values
  {
    forall p | p in db.waitingThreadsQueue ensures p in who.Values {
      var i :| 0 <= i < |db.waitingThreadsQueue| && db.waitingThreadsQueue[i] == p;
      assert s.queue[i] in who && who[s.queue[i]] == p;
    }
  }

  ghost predicate Knows(db: ServerDB, who: map<Tid, AwaitingParams>, s: State)
    reads db, db.waitingThreadsQueue, who.Values
  {
    Represents(db, who, s) && who.Keys == s.threads.Keys
  }

  // A thread begins or ends.
  method BeginOrEnd(db: ServerDB, who: map<Tid, AwaitingParams>, s: State, l: Label, ghost now: nat)
    returns (who1: map<Tid, AwaitingParams>)
    requires Knows(db, who, s) && Enabled(s, l) && (l.Spawn? || l.Exit?)
    ensures Knows(db, who1, Apply(s, l, now))
    ensures forall t :: t in who1 ==> fresh(who1[t]) || (t in who && who1[t] == who[t])
  {
    if l.Spawn? {
      var p := SpawnThread(db, who, s, l.actor, now);
      who1 := who[l.actor := p];
    } else {
      ExitThread(db, who, s, l.actor, now);
      who1 := who - {l.actor};
    }
  }

  // A thread queues itself, or is woken.
  method WaitOrResume(db: ServerDB, who: map<Tid, AwaitingParams>, s: State, l: Label, ghost now: nat)
    returns (outcome: Outcome)
    requires Knows(db, who, s) && Enabled(s, l) && (l.Enqueue? || l.Resume?)
    modifies db, who.Values
    ensures Knows(db, who, Apply(s, l, now)) && outcome == OutcomeOf(s, l)
  {
    outcome := Silent;
    var t := l.actor;
    var p, r := who[t], s.threads[t].request;
    if l.Enqueue? {
      EnqueueParams(db, who, s, t, p, r, now);
    } else {
      var tuple := ResumeThread(db, who, s, t, p, now);
      outcome := Found(r.isInput, tuple);
    }
  }

  // A thread searches or inserts.
  method SearchOrInsert(db: ServerDB, who: map<Tid, AwaitingParams>, s: State, l: Label, ghost now: nat)
    returns (outcome: Outcome)
    requires Knows(db, who, s) && Enabled(s, l) && (l.Search? || l.Insert?)
    modifies db`records, db`contents
    ensures Knows(db, who, Apply(s, l, now)) && outcome == OutcomeOf(s, l)
  {
    var t := l.actor;
    if l.Search? {
      var tuple := SearchDatabase(db, who, s, t, l.request, now);
      outcome := if tuple != [] then Found(l.request.isInput, tuple) else Silent;
    } else {
      var x := s.threads[t].phase.tuple;
      var added := InsertIntoDatabase(db, who, s, t, x, now);
      outcome := Wrote(x, added);
    }
  }

  lemma OfferKeepsThreads(s: State, t: Tid, x: Tuple, now: nat)
    requires Enabled(s, Inform(t, x)) && |s.stamps| == |s.store|
    ensures Apply(s, Inform(t, x), now).threads.Keys == s.threads.Keys
  {
  }

  // A thread offers its tuple to the waiters.
  method OfferToAll(db: ServerDB, who: map<Tid, AwaitingParams>, s: State, t: Tid, x: Tuple, ghost now: nat)
    returns (outcome: Outcome)
    requires Represents(db, who, s) && Enabled(s, Inform(t, x))
    modifies db, who.Values
    ensures Represents(db, who, Apply(s, Inform(t, x), now)) && outcome == OutcomeOf(s, Inform(t, x))
  {
    WaitersAreKnown(db, who, s);
    var taken := InformWaiters(db, who, s, t, x, now);
    outcome := if taken then Wrote(x, true) else Silent;
  }

  // What the clients learn in a run, step by step.
  function Learned(ls: seq<Label>): seq<Outcome>
    requires Run(ls)
  {
    if ls == [] then [] else Learned(Before(ls)) + [OutcomeOf(After(Before(ls)), Last(ls))]
  }

  lemma NextOutcome(ls: seq<Label>, i: nat)
    requires Run(ls) && i < |ls|
    ensures Run(ls[..i]) && Enabled(After(ls[..i]), ls[i])
    ensures Run(ls[..i + 1]) && After(ls[..i + 1]) == Apply(After(ls[..i]), ls[i], i)
    ensures Learned(ls[..i + 1]) == Learned(ls[..i]) + [OutcomeOf(After(ls[..i]), ls[i])]
  {
    PrefixRuns(ls, i);
    assert Before(ls[..i + 1]) == ls[..i] && Last(ls[..i + 1]) == ls[i];
  }

  // The objects after the first steps of a run.
  ghost predicate CarriedOut(db: ServerDB, who: map<Tid, AwaitingParams>, outcomes: seq<Outcome>, ls: seq<Label>)
    reads db, db.waitingThreadsQueue, who.Values
  {
    Run(ls) && Knows(db, who, After(ls)) && outcomes == Learned(ls)
  }

  method CarryOn(db: ServerDB, who: map<Tid, AwaitingParams>, s: State, outcomes: seq<Outcome>, l: Label,
                 ghost ls: seq<Label>, i: nat)
    returns (who1: map<Tid, AwaitingParams>, s1: State, outcomes1: seq<Outcome>)
    requires Run(ls) && i < |ls| && ls[i] == l && CarriedOut(db, who, outcomes, ls[..i]) && s == After(ls[..i])
    modifies db, who.Values
    ensures CarriedOut(db, who1, outcomes1, ls[..i + 1]) && s1 == After(ls[..i + 1])
    ensures forall t :: t in who1 ==> fresh(who1[t]) || (t in who && who1[t] == who[t])
  {
    NextOutcome(ls, i);
    var outcome := Silent;
    who1 := who;
    match l {
      case Spawn(_) => who1 := BeginOrEnd(db, who, s, l, i);
      case Exit(_) => who1 := BeginOrEnd(db, who, s, l, i);
      case Search(_, _) => outcome := SearchOrInsert(db, who, s, l, i);
      case Insert(_) => outcome := SearchOrInsert(db, who, s, l, i);
      case Enqueue(_) => outcome := WaitOrResume(db, who, s, l, i);
      case Resume(_) => outcome := WaitOrResume(db, who, s, l, i);
      case Inform(t, x) =>
        OfferKeepsThreads(s, t, x, i);
        outcome := OfferToAll(db, who, s, t, x, i);
    }
    s1 := Apply(s, l, i);
    outcomes1 := outcomes + [outcome];
  }

  /** Every run is carried out by the objects: from the start, the critical sections in the order of
      the labels end in a database and parameters that represent the state of the model, and the
      clients learn what the model says. */
  method CarryOut(ls: seq<Label>) returns (db: ServerDB, who: map<Tid, AwaitingParams>, outcomes: seq<Outcome>)
    requires Run(ls)
    ensures fresh(db) && forall t :: t in who ==> fresh(who[t])
    ensures Represents(db, who, After(ls)) && who.Keys == After(ls).threads.Keys && outcomes == Learned(ls)
  {
    db := Start();
    who, outcomes := map[], [];
    var s := EMPTY;
    for i := 0 to |ls|
      invariant fresh(db) && forall t :: t in who ==> fresh(who[t])
      invariant CarriedOut(db, who, outcomes, ls[..i]) && s == After(ls[..i])
    {
      who, s, outcomes := CarryOn(db, who, s, outcomes, ls[i], ls, i);
    }
    assert ls[..|ls|] == ls;
  }
}
