/** Any number of service threads sharing one ServerDB. A run is a list of labels, one for each
    critical section, and determines the state it leads to. */
module Interleaving {
  import opened Types
  import opened TupleSpace

  type Tid = nat

  datatype Phase =
    | Idle
    // The search found nothing; not queued yet.
    | Searched(searchAt: nat)
    // In waitForTuple: queued, or served and about to resume.
    | Waiting(searchAt: nat, enqueueAt: nat)
    // No waiting input took the tuple; not inserted yet.
    | Informed(tuple: Tuple, informAt: nat)

  // The thread's AwaitingParams; `locked` is its mutex, locked by the constructor.
  datatype Thread = Thread(phase: Phase, request: Request, locked: bool, passed: Tuple)

  // Which output stored a tuple: its thread and the times of its two critical sections.
  datatype Stamp = Stamp(writer: Tid, informAt: nat, insertAt: nat)

  datatype State = State(threads: map<Tid, Thread>, store: seq<Tuple>, stamps: seq<Stamp>, queue: seq<Tid>)

  const EMPTY: State := State(map[], [], [], [])

  datatype Label =
    | Spawn(actor: Tid)
    | Exit(actor: Tid)
    | Search(actor: Tid, request: Request)
    | Enqueue(actor: Tid)
    | Inform(actor: Tid, tuple: Tuple)
    | Insert(actor: Tid)
    | Resume(actor: Tid)

  // What the client of the acting thread learns from a step.
  datatype Outcome =
    | Silent
    | Found(isInput: bool, tuple: Tuple)
    | Wrote(tuple: Tuple, accepted: bool)

  predicate Enabled(s: State, l: Label) {
    if l.Spawn? then l.actor !in s.threads
    else
      && l.actor in s.threads
      && var th := s.threads[l.actor];
         match l
         case Enqueue(_) => th.phase.Searched?
         case Insert(_) => th.phase.Informed?
         case Resume(_) => th.phase.Waiting? && !th.locked
         case _ => th.phase.Idle?
  }

  function RequestOf(s: State, t: Tid): Request {
    if t in s.threads then s.threads[t].request else Request([], false)
  }

  function Requests(s: State): (rs: seq<Request>)
    ensures |rs| == |s.queue|
    ensures forall i :: 0 <= i < |rs| ==> rs[i] == RequestOf(s, s.queue[i])
  {
    seq(|s.queue|, i requires 0 <= i < |s.queue| => RequestOf(s, s.queue[i]))
  }

  predicate ServedBy(s: State, x: Tuple, t: Tid) {
    exists i :: 0 <= i < |s.queue| && s.queue[i] == t && ServedAt(Requests(s), x, i)
  }

  predicate TakenBy(s: State, x: Tuple) {
    FirstTaker(Requests(s), x) < |s.queue|
  }

  // findTuple and findTupleAndRemoveIt, then the test for "nothing found" in the handlers.
  function SearchStep(s: State, t: Tid, r: Request, now: nat): State
    requires t in s.threads && |s.stamps| == |s.store|
  {
    var i := MatchIndex(s.store, r.pattern);
    var s1 := if i < |s.store| && r.isInput
              then s.(store := RemoveAt(s.store, i), stamps := RemoveAt(s.stamps, i)) else s;
    if i < |s.store| && s.store[i] != [] then s1
    else s1.(threads := s.threads[t := s.threads[t].(phase := Searched(now), request := r)])
  }

  // informWaitingThreads.
  function InformStep(s: State, t: Tid, x: Tuple, now: nat): State
    requires t in s.threads
  {
    var ths := map u | u in s.threads ::
      if ServedBy(s, x, u) then s.threads[u].(locked := false, passed := x) else s.threads[u];
    s.(threads := ths[t := ths[t].(phase := if TakenBy(s, x) then Idle else Informed(x, now))],
       queue := Remaining(s.queue, Served(Requests(s), x)))
  }

  // The second critical section of addTupleToDB.
  function InsertStep(s: State, t: Tid, now: nat): State
    requires t in s.threads && s.threads[t].phase.Informed?
  {
    var ph := s.threads[t].phase;
    var s1 := s.(threads := s.threads[t := s.threads[t].(phase := Idle)]);
    if Holding(s.store, ph.tuple) then s1
    else s1.(store := s.store + [ph.tuple], stamps := s.stamps + [Stamp(t, ph.informAt, now)])
  }

  function Apply(s: State, l: Label, now: nat): State
    requires Enabled(s, l) && |s.stamps| == |s.store|
  {
    match l
    case Spawn(t) => s.(threads := s.threads[t := Thread(Idle, Request([], false), true, [])])
    case Exit(t) => s.(threads := s.threads - {t})
    case Search(t, r) => SearchStep(s, t, r, now)
    case Enqueue(t) =>
      s.(threads := s.threads[t := s.threads[t].(phase := Waiting(s.threads[t].phase.searchAt, now))],
         queue := s.queue + [t])
    case Inform(t, x) => InformStep(s, t, x, now)
    case Insert(t) => InsertStep(s, t, now)
    case Resume(t) => s.(threads := s.threads[t := s.threads[t].(phase := Idle, locked := true)])
  }

  function OutcomeOf(s: State, l: Label): Outcome
    requires Enabled(s, l)
  {
    match l
    case Search(_, r) =>
      var i := MatchIndex(s.store, r.pattern);
      if i < |s.store| && s.store[i] != [] then Found(r.isInput, s.store[i]) else Silent
    case Inform(_, x) => if TakenBy(s, x) then Wrote(x, true) else Silent
    case Insert(t) => var x := s.threads[t].phase.tuple; Wrote(x, !Holding(s.store, x))
    case Resume(t) => Found(s.threads[t].request.isInput, s.threads[t].passed)
    case _ => Silent
  }

  predicate Run(ls: seq<Label>)
    decreases |ls|, 0
  {
    ls == [] || (Run(Before(ls)) && Enabled(After(Before(ls)), Last(ls)))
  }

  function Before(ls: seq<Label>): seq<Label>
    requires ls != []
  {
    ls[..|ls| - 1]
  }

  function Last(ls: seq<Label>): Label
    requires ls != []
  {
    ls[|ls| - 1]
  }

  function After(ls: seq<Label>): (s: State)
    requires Run(ls)
    ensures |s.stamps| == |s.store|
    decreases |ls|, 1
  {
    if ls == [] then EMPTY else Apply(After(Before(ls)), Last(ls), |ls| - 1)
  }

  // ---- The wake-up token -------------------------------------------------------------

  ghost predicate Queued(s: State, t: Tid) {
    t in s.queue
  }

  // An unlocked token means: served, not resumed yet.
  ghost predicate TokenOk(s: State, t: Tid)
    requires t in s.threads
  {
    var th := s.threads[t];
    && (th.locked <==> !(th.phase.Waiting? && !Queued(s, t)))
    && (Queued(s, t) ==> th.phase.Waiting?)
    && (!th.locked ==> MatchesTuple(th.request.pattern, th.passed))
  }

  ghost predicate TokensOk(s: State) {
    && Distinct(s.queue)
    && (forall t :: t in s.queue ==> t in s.threads)
    && (forall t :: t in s.threads ==> TokenOk(s, t))
  }

  // An output removes from the queue exactly the threads it serves.
  lemma InformQueue(s: State, t: Tid, x: Tuple, now: nat)
    requires t in s.threads && Distinct(s.queue)
    ensures var s1 := InformStep(s, t, x, now);
      && Distinct(s1.queue)
      && forall u :: Queued(s1, u) <==> Queued(s, u) && !ServedBy(s, x, u)
  {
    RemainingEntries(s.queue, Served(Requests(s), x));
  }

  lemma InformKeepsTokens(s: State, t: Tid, x: Tuple, now: nat)
    requires TokensOk(s) && Enabled(s, Inform(t, x))
    ensures TokensOk(InformStep(s, t, x, now))
  {
    InformQueue(s, t, x, now);
    var s1 := InformStep(s, t, x, now);
    forall u | u in s1.threads
      ensures TokenOk(s1, u)
    {
      assert TokenOk(s, u) && TokenOk(s, t);
      if ServedBy(s, x, u) {
        assert Queued(s, u) && MatchesTuple(RequestOf(s, u).pattern, x);
      }
    }
  }

  lemma StepKeepsTokens(s: State, l: Label, now: nat)
    requires TokensOk(s) && Enabled(s, l) && |s.stamps| == |s.store|
    ensures TokensOk(Apply(s, l, now))
  {
    if l.Inform? {
      InformKeepsTokens(s, l.actor, l.tuple, now);
    } else {
      var s1 := Apply(s, l, now);
      forall u | u in s1.threads
        ensures TokenOk(s1, u)
      {
        assert u in s.threads ==> TokenOk(s, u);
      }
    }
  }

  lemma {:induction false} TokenInvariant(ls: seq<Label>)
    requires Run(ls)
    ensures TokensOk(After(ls))
  {
    if ls != [] {
      TokenInvariant(Before(ls));
      StepKeepsTokens(After(Before(ls)), Last(ls), |ls| - 1);
    }
  }

  /** In every reachable state exactly the queued threads cannot take a step. */
  lemma NobodyElseIsStuck(ls: seq<Label>, t: Tid)
    requires Run(ls)
    ensures Queued(After(ls), t) <==> forall l: Label :: l.actor == t ==> !Enabled(After(ls), l)
  {
    var s := After(ls);
    TokenInvariant(ls);
    if t !in s.threads {
      assert Enabled(s, Spawn(t));
    } else {
      assert TokenOk(s, t);
      match s.threads[t].phase
      case Idle => assert Enabled(s, Exit(t));
      case Searched(_) => assert Enabled(s, Enqueue(t));
      case Informed(_, _) => assert Enabled(s, Insert(t));
      case Waiting(_, _) => assert !Queued(s, t) ==> Enabled(s, Resume(t));
    }
  }

  /** A thread that has begun, or has finished a command, may begin any other; one whose search found
      nothing may queue itself, and one whose tuple no waiting input took may insert it. */
  lemma AnyCommandMayFollow(s: State, l: Label, now: nat, r: Request, x: Tuple)
    requires Enabled(s, l) && |s.stamps| == |s.store| && !l.Exit? && !l.Enqueue?
    ensures var s1 := Apply(s, l, now);
      if l.Search? && forall y :: y in s.store && y != [] ==> !MatchesTuple(l.request.pattern, y)
      then Enabled(s1, Enqueue(l.actor))
      else if l.Inform? && forall i :: 0 <= i < |s.queue| ==> !Takes(Requests(s)[i], l.tuple)
      then Enabled(s1, Insert(l.actor))
      else
        l.Search? ||
        (Enabled(s1, Search(l.actor, r)) && Enabled(s1, Inform(l.actor, x)) && Enabled(s1, Exit(l.actor)))
  {
  }

  // No thread is served twice before it resumes: an output unlocks locked tokens only.
  lemma UnlocksLockedTokens(ls: seq<Label>, u: Tid)
    requires Run(ls) && ls != [] && Last(ls).Inform?
    requires ServedBy(After(Before(ls)), Last(ls).tuple, u)
    ensures u in After(Before(ls)).threads && After(Before(ls)).threads[u].locked
    ensures u in After(ls).threads && !After(ls).threads[u].locked
  {
    TokenInvariant(Before(ls));
    var s := After(Before(ls));
    assert Queued(s, u) && TokenOk(s, u);
    assert TokenOk(s, Last(ls).actor);
  }

  // ---- Lost wake-ups -----------------------------------------------------------------

  ghost predicate Meets(s: State, c: nat, t: Tid)
    requires c < |s.store| && t in s.threads
  {
    s.store[c] != [] && MatchesTuple(s.threads[t].request.pattern, s.store[c])
  }

  // A thread that found nothing searched before the matching tuple was inserted,
  // and was queued after the tuple was offered to the queue.
  ghost predicate CopyOk(s: State, c: int, t: Tid)
    requires |s.stamps| == |s.store|
  {
    0 <= c < |s.store| && t in s.threads && Meets(s, c, t) ==>
      && (s.threads[t].phase.Searched? ==> s.threads[t].phase.searchAt < s.stamps[c].insertAt)
      && (Queued(s, t) && s.threads[t].phase.Waiting? ==>
            && s.threads[t].phase.searchAt < s.stamps[c].insertAt
            && s.stamps[c].informAt < s.threads[t].phase.enqueueAt)
  }

  // The same for an output that has still to insert its tuple.
  ghost predicate OfferOk(s: State, u: Tid, t: Tid) {
    u in s.threads && s.threads[u].phase.Informed? && Queued(s, t) && t in s.threads && s.threads[t].phase.Waiting?
    && MatchesTuple(s.threads[t].request.pattern, s.threads[u].phase.tuple)
    ==> s.threads[u].phase.informAt < s.threads[t].phase.enqueueAt
  }

  ghost predicate PhaseOk(p: Phase, now: nat) {
    match p
    case Idle => true
    case Searched(k) => k < now
    case Waiting(k, l) => k < l < now
    case Informed(_, i) => i < now
  }

  ghost predicate StampOk(w: Stamp, now: nat) {
    w.informAt < w.insertAt < now
  }

  ghost predicate ClocksOk(s: State, now: nat)
    requires |s.stamps| == |s.store|
  {
    && (forall t :: t in s.threads ==> PhaseOk(s.threads[t].phase, now))
    && (forall c :: 0 <= c < |s.store| ==> StampOk(s.stamps[c], now))
  }

  ghost predicate TimesOk(s: State, now: nat)
    requires |s.stamps| == |s.store|
  {
    && ClocksOk(s, now)
    && (forall c, t :: CopyOk(s, c, t))
    && (forall u, t :: OfferOk(s, u, t))
  }

  // A stored tuple was stored before the step too, unless the step inserted it.
  lemma OldCopy(s: State, l: Label, now: nat, c: nat) returns (d: nat)
    requires Enabled(s, l) && |s.stamps| == |s.store|
    requires c < |Apply(s, l, now).store| && !(l.Insert? && c == |s.store|)
    ensures d < |s.store| && Apply(s, l, now).store[c] == s.store[d]
    ensures |Apply(s, l, now).stamps| == |Apply(s, l, now).store| && Apply(s, l, now).stamps[c] == s.stamps[d]
  {
    d := c;
    if l.Search? && |Apply(s, l, now).store| < |s.store| && MatchIndex(s.store, l.request.pattern) <= c {
      d := c + 1;
    }
  }

  lemma StepKeepsClocks(s: State, l: Label, now: nat)
    requires |s.stamps| == |s.store| && ClocksOk(s, now) && Enabled(s, l)
    ensures |Apply(s, l, now).stamps| == |Apply(s, l, now).store| && ClocksOk(Apply(s, l, now), now + 1)
  {
    var s1 := Apply(s, l, now);
    forall v | v in s1.threads ensures PhaseOk(s1.threads[v].phase, now + 1) {
      assert v in s.threads ==> PhaseOk(s.threads[v].phase, now);
    }
    forall c | 0 <= c < |s1.store| ensures StampOk(s1.stamps[c], now + 1) {
      if l.Insert? && c == |s.store| {
        assert PhaseOk(s.threads[l.actor].phase, now);
      } else {
        var d := OldCopy(s, l, now, c);
        assert StampOk(s.stamps[d], now);
      }
    }
  }

  lemma SearchKeepsTimes(s: State, t: Tid, r: Request, now: nat)
    requires |s.stamps| == |s.store| && TokensOk(s) && TimesOk(s, now) && Enabled(s, Search(t, r))
    ensures TimesOk(SearchStep(s, t, r, now), now + 1)
  {
    var s1 := SearchStep(s, t, r, now);
    StepKeepsClocks(s, Search(t, r), now);
    assert TokenOk(s, t);
    forall c, v ensures CopyOk(s1, c, v) {
      if 0 <= c < |s1.store| {
        var d := OldCopy(s, Search(t, r), now, c);
        assert CopyOk(s, d, v) && StampOk(s.stamps[d], now);
      }
    }
    forall u, v ensures OfferOk(s1, u, v) {
      assert OfferOk(s, u, v);
    }
  }

  // Whoever stays queued when no input takes x does not match x.
  lemma NobodyLeftMatches(s: State, t: Tid, x: Tuple, now: nat, v: Tid)
    requires Distinct(s.queue) && t in s.threads && v in s.threads && !TakenBy(s, x)
    requires Queued(InformStep(s, t, x, now), v)
    ensures !MatchesTuple(s.threads[v].request.pattern, x)
  {
    InformQueue(s, t, x, now);
    var i :| 0 <= i < |s.queue| && s.queue[i] == v;
    assert !ServedAt(Requests(s), x, i);
  }

  lemma InformKeepsOffer(s: State, t: Tid, x: Tuple, now: nat, u: Tid, v: Tid)
    requires |s.stamps| == |s.store| && TokensOk(s) && OfferOk(s, u, v) && Enabled(s, Inform(t, x))
    ensures OfferOk(InformStep(s, t, x, now), u, v)
  {
    InformQueue(s, t, x, now);
    assert TokenOk(s, t);
    if u == t && v in s.threads && Queued(InformStep(s, t, x, now), v) && !TakenBy(s, x) {
      NobodyLeftMatches(s, t, x, now, v);
    }
  }

  // An output changes the phase of nobody else, and no request.
  lemma InformedPhases(s: State, t: Tid, x: Tuple, now: nat, v: Tid)
    requires t in s.threads
    ensures v in InformStep(s, t, x, now).threads <==> v in s.threads
    ensures v in s.threads ==>
      var th := InformStep(s, t, x, now).threads[v];
      && th.request == s.threads[v].request
      && th.phase == if v != t then s.threads[v].phase else if TakenBy(s, x) then Idle else Informed(x, now)
  {
  }

  lemma InformKeepsCopy(s: State, t: Tid, x: Tuple, now: nat, c: int, v: Tid)
    requires |s.stamps| == |s.store| && TokensOk(s) && CopyOk(s, c, v) && Enabled(s, Inform(t, x))
    ensures CopyOk(InformStep(s, t, x, now), c, v)
  {
    InformQueue(s, t, x, now);
    InformedPhases(s, t, x, now, v);
    assert TokenOk(s, t);
  }

  lemma InformKeepsTimes(s: State, t: Tid, x: Tuple, now: nat)
    requires |s.stamps| == |s.store| && TokensOk(s) && TimesOk(s, now) && Enabled(s, Inform(t, x))
    ensures TimesOk(InformStep(s, t, x, now), now + 1)
  {
    StepKeepsClocks(s, Inform(t, x), now);
    forall c, v ensures CopyOk(InformStep(s, t, x, now), c, v) {
      assert CopyOk(s, c, v);
      InformKeepsCopy(s, t, x, now, c, v);
    }
    forall u, v ensures OfferOk(InformStep(s, t, x, now), u, v) {
      assert OfferOk(s, u, v);
      InformKeepsOffer(s, t, x, now, u, v);
    }
  }

  lemma InsertKeepsTimes(s: State, t: Tid, now: nat)
    requires |s.stamps| == |s.store| && TokensOk(s) && TimesOk(s, now) && Enabled(s, Insert(t))
    ensures TimesOk(InsertStep(s, t, now), now + 1)
  {
    var s1 := InsertStep(s, t, now);
    StepKeepsClocks(s, Insert(t), now);
    assert TokenOk(s, t);
    forall c, v ensures CopyOk(s1, c, v) {
      assert CopyOk(s, c, v);
      assert OfferOk(s, t, v);
      assert v in s.threads ==> PhaseOk(s.threads[v].phase, now);
    }
    forall u, v ensures OfferOk(s1, u, v) {
      assert OfferOk(s, u, v);
    }
  }

  lemma OtherStepsKeepTimes(s: State, l: Label, now: nat)
    requires |s.stamps| == |s.store| && TokensOk(s) && TimesOk(s, now) && Enabled(s, l)
    requires l.Spawn? || l.Exit? || l.Enqueue? || l.Resume?
    ensures TimesOk(Apply(s, l, now), now + 1)
  {
    var s1 := Apply(s, l, now);
    StepKeepsClocks(s, l, now);
    assert l.actor in s.threads ==> TokenOk(s, l.actor);
    forall c, v ensures CopyOk(s1, c, v) {
      assert CopyOk(s, c, v);
      assert 0 <= c < |s.store| ==> StampOk(s.stamps[c], now);
    }
    forall u, v ensures OfferOk(s1, u, v) {
      assert OfferOk(s, u, v);
      assert u in s.threads ==> PhaseOk(s.threads[u].phase, now);
    }
  }

  lemma {:induction false} TimeInvariant(ls: seq<Label>)
    requires Run(ls)
    ensures TimesOk(After(ls), |ls|)
  {
    if ls != [] {
      TimeInvariant(Before(ls));
      TokenInvariant(Before(ls));
      var s := After(Before(ls));
      match Last(ls)
      case Search(t, r) => SearchKeepsTimes(s, t, r, |ls| - 1);
      case Inform(t, x) => InformKeepsTimes(s, t, x, |ls| - 1);
      case Insert(t) => InsertKeepsTimes(s, t, |ls| - 1);
      case _ => OtherStepsKeepTimes(s, Last(ls), |ls| - 1);
    }
  }
}
