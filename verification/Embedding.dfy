/** In every run of the interleaving model a command of one thread is `PerformAmong`: the steps of the
    other threads are the deeds between its critical sections and behind them. */
module Embedding {
  import opened Types
  import opened TupleSpace
  import opened Interleaving
  import opened Runs
  import opened Others
  import opened Serial

  // What a step does to the shared objects.
  function DeedOf(s: State, l: Label): seq<Deed>
    requires Enabled(s, l)
  {
    match l
    case Search(_, r) => if r.isInput then [Takes(r.pattern)] else [Searches(r.pattern)]
    case Enqueue(t) => [Waits(s.threads[t].request)]
    case Inform(_, x) => [Offers(x)]
    case Insert(t) => [Stores(s.threads[t].phase.tuple)]
    case _ => []
  }

  lemma HappenOne(s: Space, d: Deed)
    ensures HappenAll(s, [d]) == Happen(s, d)
  {
    assert [d][1..] == [];
  }

  lemma SameRequests(s: State, s1: State)
    requires s1.queue == s.queue && forall t :: t in s.queue ==> RequestOf(s1, t) == RequestOf(s, t)
    ensures Requests(s1) == Requests(s)
  {
    forall i | 0 <= i < |s.queue| ensures Requests(s1)[i] == Requests(s)[i] {
      assert s.queue[i] in s.queue;
    }
  }

  lemma StepHappens(s: State, l: Label, now: nat)
    requires TokensOk(s) && Enabled(s, l) && |s.stamps| == |s.store|
    ensures Shared(Apply(s, l, now)) == HappenAll(Shared(s), DeedOf(s, l))
  {
    var s1 := Apply(s, l, now);
    if l.Inform? {
      InformedRequests(s, l.actor, l.tuple, now);
      HappenOne(Shared(s), Offers(l.tuple));
    } else if l.Enqueue? {
      HappenOne(Shared(s), Waits(s.threads[l.actor].request));
      assert TokenOk(s, l.actor);
      assert Requests(s1) == Requests(s) + [s.threads[l.actor].request];
    } else {
      assert l.actor in s.threads ==> TokenOk(s, l.actor);
      SameRequests(s, s1);
      if DeedOf(s, l) != [] {
        HappenOne(Shared(s), DeedOf(s, l)[0]);
      }
    }
  }

  // Thread t is where pl says.
  ghost predicate IsAt(s: State, t: Tid, pl: Place) {
    match pl
    case Away => false
    case At(i) => i < |s.queue| && s.queue[i] == t
    case Passed(x) =>
      !Queued(s, t) && t in s.threads && s.threads[t].phase.Waiting? && !s.threads[t].locked && s.threads[t].passed == x
  }

  lemma MoveOne(s: Space, pl: Place, d: Deed)
    ensures MoveAll(s, pl, [d]) == Move(s, pl, d)
  {
    assert [d][1..] == [];
  }

  // An offer of another thread moves a waiting thread as Move says, ...
  lemma OfferMoves(s: State, u: Tid, x: Tuple, now: nat, t: Tid, pl: Place)
    requires TokensOk(s) && Enabled(s, Inform(u, x)) && t != u && t in s.threads && IsAt(s, t, pl)
    ensures IsAt(InformStep(s, u, x, now), t, Move(Shared(s), pl, Offers(x)))
  {
    assert TokenOk(s, t);
    MovedTo(s.queue, Shared(s), t, pl, x);
    if pl.At? {
      assert ServedBy(s, x, t) <==> ServedAt(Requests(s), x, pl.i);
    }
  }

  // ... and no other step of theirs moves it.
  lemma PlaceMoves(s: State, l: Label, now: nat, t: Tid, pl: Place)
    requires TokensOk(s) && Enabled(s, l) && |s.stamps| == |s.store|
    requires l.actor != t && t in s.threads && IsAt(s, t, pl)
    ensures IsAt(Apply(s, l, now), t, MoveAll(Shared(s), pl, DeedOf(s, l)))
  {
    if l.Inform? {
      MoveOne(Shared(s), pl, Offers(l.tuple));
      OfferMoves(s, l.actor, l.tuple, now, t, pl);
    } else if DeedOf(s, l) != [] {
      MoveOne(Shared(s), pl, DeedOf(s, l)[0]);
    }
  }

  lemma {:induction false} MoveAppend(s: Space, pl: Place, a: seq<Deed>, b: seq<Deed>)
    ensures MoveAll(s, pl, a + b) == MoveAll(HappenAll(s, a), MoveAll(s, pl, a), b)
    decreases |a|
  {
    if a == [] {
      assert a + b == b;
    } else {
      assert (a + b)[0] == a[0] && (a + b)[1..] == a[1..] + b;
      MoveAppend(Happen(s, a[0]), Move(s, pl, a[0]), a[1..], b);
    }
  }

  // A run step by step: states[m] is the state after m steps, deeds[m] is what step m does.
  datatype Trace = Trace(labels: seq<Label>, states: seq<State>, deeds: seq<seq<Deed>>)

  ghost predicate Leads(s: State, l: Label, now: nat, s1: State, d: seq<Deed>) {
    TokensOk(s) && |s.stamps| == |s.store| && Enabled(s, l) && s1 == Apply(s, l, now) && d == DeedOf(s, l)
  }

  ghost predicate Valid(tr: Trace) {
    && |tr.states| == |tr.labels| + 1 && |tr.deeds| == |tr.labels|
    && forall m {:trigger tr.labels[m]} :: 0 <= m < |tr.labels| ==>
         Leads(tr.states[m], tr.labels[m], m, tr.states[m + 1], tr.deeds[m])
  }

  lemma LeadsAt(tr: Trace, m: nat)
    requires Valid(tr) && m < |tr.labels|
    ensures Leads(tr.states[m], tr.labels[m], m, tr.states[m + 1], tr.deeds[m])
  {
  }

  function TraceOf(ls: seq<Label>): (tr: Trace)
    requires Run(ls)
    ensures tr.labels == ls && |tr.states| == |ls| + 1 && |tr.deeds| == |ls| && tr.states[|ls|] == After(ls)
    decreases |ls|
  {
    if ls == [] then Trace([], [EMPTY], [])
    else
      var tr := TraceOf(Before(ls));
      Trace(ls, tr.states + [After(ls)], tr.deeds + [DeedOf(After(Before(ls)), Last(ls))])
  }

  lemma {:induction false} RunIsTrace(ls: seq<Label>)
    requires Run(ls)
    ensures Valid(TraceOf(ls))
  {
    if ls != [] {
      RunIsTrace(Before(ls));
      TokenInvariant(Before(ls));
      var tr := TraceOf(ls);
      forall m | 0 <= m < |ls| ensures Leads(tr.states[m], ls[m], m, tr.states[m + 1], tr.deeds[m]) {
        if m < |ls| - 1 {
          LeadsAt(TraceOf(Before(ls)), m);
        }
      }
    }
  }

  lemma {:induction false} StatesAreReached(ls: seq<Label>, m: nat)
    requires Run(ls) && m <= |ls|
    ensures Run(ls[..m]) && TraceOf(ls).states[m] == After(ls[..m])
  {
    if m < |ls| {
      StatesAreReached(Before(ls), m);
      assert Before(ls)[..m] == ls[..m];
    } else {
      assert ls[..m] == ls;
    }
  }

  // The deeds of the steps from a up to b.
  function DeedsIn(tr: Trace, a: nat, b: nat): seq<Deed>
    requires a <= b <= |tr.deeds|
    decreases b
  {
    if a == b then [] else DeedsIn(tr, a, b - 1) + tr.deeds[b - 1]
  }

  // The deeds have led from `start` to s.
  ghost predicate Happened(start: Space, deeds: seq<Deed>, s: State) {
    Shared(s) == HappenAll(start, deeds)
  }

  lemma HappenedOnceMore(start: Space, deeds: seq<Deed>, s: State, l: Label, now: nat, s1: State, d: seq<Deed>)
    requires Leads(s, l, now, s1, d) && Happened(start, deeds, s)
    ensures Happened(start, deeds + d, s1)
  {
    StepHappens(s, l, now);
    HappenAppend(start, deeds, d);
  }

  lemma NextHappens(tr: Trace, a: nat, b: nat, start: Space)
    requires Valid(tr) && a <= b < |tr.labels| && Happened(start, DeedsIn(tr, a, b), tr.states[b])
    ensures Happened(start, DeedsIn(tr, a, b + 1), tr.states[b + 1])
  {
    LeadsAt(tr, b);
    HappenedOnceMore(start, DeedsIn(tr, a, b), tr.states[b], tr.labels[b], b, tr.states[b + 1], tr.deeds[b]);
  }

  // The database and the queue change as by the deeds of the steps.
  lemma {:induction false} TraceHappens(tr: Trace, a: nat, b: nat, start: Space)
    requires Valid(tr) && a <= b <= |tr.labels| && Happened(start, [], tr.states[a])
    ensures Happened(start, DeedsIn(tr, a, b), tr.states[b])
    decreases b
  {
    if a < b {
      TraceHappens(tr, a, b - 1, start);
      NextHappens(tr, a, b - 1, start);
    }
  }

  // What a thread is about: its phase and its request.
  ghost predicate IsAbout(s: State, t: Tid, p: Phase, r: Request) {
    t in s.threads && s.threads[t].phase == p && s.threads[t].request == r
  }

  lemma BystanderStays(s: State, l: Label, now: nat, s1: State, d: seq<Deed>, t: Tid, p: Phase, r: Request)
    requires Leads(s, l, now, s1, d) && l.actor != t && IsAbout(s, t, p, r)
    ensures IsAbout(s1, t, p, r)
  {
  }

  // It does not change while the thread takes no step.
  lemma {:induction false} QuietStays(tr: Trace, t: Tid, a: nat, b: nat, p: Phase, r: Request)
    requires Valid(tr) && a < b <= |tr.labels| && Quiet(tr.labels, t, a, b) && IsAbout(tr.states[a + 1], t, p, r)
    ensures IsAbout(tr.states[b], t, p, r)
    decreases b
  {
    if a + 1 < b {
      QuietStays(tr, t, a, b - 1, p, r);
      LeadsAt(tr, b - 1);
      BystanderStays(tr.states[b - 1], tr.labels[b - 1], b - 1, tr.states[b], tr.deeds[b - 1], t, p, r);
    }
  }

  // The deeds have led from `start` to s and moved thread t.
  ghost predicate Moved(start: Space, pl: Place, deeds: seq<Deed>, s: State, t: Tid) {
    t in s.threads && Happened(start, deeds, s) && IsAt(s, t, MoveAll(start, pl, deeds))
  }

  // One more step of another thread.
  lemma MovedOnceMore(start: Space, pl: Place, deeds: seq<Deed>, s: State, l: Label, now: nat, s1: State,
                      d: seq<Deed>, t: Tid)
    requires Leads(s, l, now, s1, d) && Moved(start, pl, deeds, s, t) && l.actor != t
    ensures Moved(start, pl, deeds + d, s1, t)
  {
    PlaceMoves(s, l, now, t, MoveAll(start, pl, deeds));
    MoveAppend(start, pl, deeds, d);
    HappenedOnceMore(start, deeds, s, l, now, s1, d);
  }

  lemma NextMoves(tr: Trace, t: Tid, a: nat, b: nat, start: Space, pl: Place)
    requires Valid(tr) && a <= b < |tr.labels| && tr.labels[b].actor != t
    requires Moved(start, pl, DeedsIn(tr, a, b), tr.states[b], t)
    ensures Moved(start, pl, DeedsIn(tr, a, b + 1), tr.states[b + 1], t)
  {
    LeadsAt(tr, b);
    MovedOnceMore(start, pl, DeedsIn(tr, a, b), tr.states[b], tr.labels[b], b, tr.states[b + 1], tr.deeds[b], t);
  }

  // A waiting thread that takes no step is moved by the deeds of the others.
  lemma {:induction false} QuietMoves(tr: Trace, t: Tid, a: nat, b: nat, start: Space, pl: Place)
    requires Valid(tr) && a <= b <= |tr.labels| && forall m :: a <= m < b ==> tr.labels[m].actor != t
    requires Moved(start, pl, [], tr.states[a], t)
    ensures Moved(start, pl, DeedsIn(tr, a, b), tr.states[b], t)
    decreases b
  {
    if a < b {
      QuietMoves(tr, t, a, b - 1, start, pl);
      NextMoves(tr, t, a, b - 1, start, pl);
    }
  }

  // ---- The commands ------------------------------------------------------------------

  // Two halves with deeds in between.
  lemma HalvesJoin(s: State, cmd: Command, s1: State, half: Half, between: seq<Deed>, s2: State, s3: Space,
                   answer: Option<Tuple>)
    requires Begin(Shared(s), cmd) == (Shared(s1), half) && Happened(Shared(s1), between, s2)
    requires Complete(Shared(s2), half) == (s3, answer)
    ensures PerformAround(Shared(s), cmd, between) == (s3, answer)
  {
  }

  // A search that found nothing is the first half of its command, ...
  lemma SearchIsBegin(s: State, t: Tid, r: Request, now: nat, s1: State, d: seq<Deed>)
    requires Leads(s, Search(t, r), now, s1, d)
    ensures t in s1.threads && Shared(s1) == Begin(Shared(s), CommandFor(r)).0
    ensures s1.threads[t].phase.Searched? ==>
      s1.threads[t].request == r && Begin(Shared(s), CommandFor(r)).1 == ToEnqueue(r)
  {
    StepHappens(s, Search(t, r), now);
    HappenOne(Shared(s), d[0]);
  }

  // The thread stands last in the queue.
  ghost predicate JustQueued(s: State, t: Tid, r: Request) {
    && t in s.threads && s.threads[t].request == r && s.threads[t].phase.Waiting?
    && s.queue != [] && s.queue[|s.queue| - 1] == t
  }

  // ... and the queueing the second.
  lemma EnqueueIsComplete(s: State, t: Tid, r: Request, now: nat, s1: State, d: seq<Deed>)
    requires Leads(s, Enqueue(t), now, s1, d) && s.threads[t].request == r
    ensures Complete(Shared(s), ToEnqueue(r)) == (Shared(s1), None) && JustQueued(s1, t, r)
  {
    StepHappens(s, Enqueue(t), now);
    HappenOne(Shared(s), Waits(r));
  }

  lemma WaitBegins(tr: Trace, t: Tid, r: Request, k: nat, l: nat)
    requires Valid(tr) && WaitOp(tr.labels, t, r, k, l)
    ensures PerformAround(Shared(tr.states[k]), CommandFor(r), DeedsIn(tr, k + 1, l)) ==
            (Shared(tr.states[l + 1]), None)
    ensures JustQueued(tr.states[l + 1], t, r)
  {
    var s, s1, s2, s3 := tr.states[k], tr.states[k + 1], tr.states[l], tr.states[l + 1];
    LeadsAt(tr, k);
    LeadsAt(tr, l);
    SearchIsBegin(s, t, r, k, s1, tr.deeds[k]);
    QuietStays(tr, t, k, l, s1.threads[t].phase, s1.threads[t].request);
    TraceHappens(tr, k + 1, l, Shared(s1));
    EnqueueIsComplete(s2, t, r, l, s3, tr.deeds[l]);
    HalvesJoin(s, CommandFor(r), s1, ToEnqueue(r), DeedsIn(tr, k + 1, l), s2, Shared(s3), None);
  }

  lemma AmongAfter(s: Space, cmd: Command, between: seq<Deed>, s1: Space, after: seq<Deed>)
    requires PerformAround(s, cmd, between) == (s1, None)
    ensures var pl := MoveAll(s1, Newest(s1), after);
      PerformAmong(s, cmd, Turn(between, after)) ==
      (HappenAll(s1, after), if pl.Passed? then Some(pl.tuple) else None)
  {
  }

  // The thread can resume just when it was passed a tuple, and its client gets that tuple.
  ghost predicate Ready(s: State, t: Tid, r: Request, pl: Place) {
    && (Enabled(s, Resume(t)) <==> pl.Passed?)
    && (pl.Passed? ==> OutcomeOf(s, Resume(t)) == Outcome.Found(r.isInput, pl.tuple))
  }

  lemma AnswerIsPassed(s: State, t: Tid, p: Phase, r: Request, pl: Place)
    requires TokensOk(s) && IsAt(s, t, pl) && IsAbout(s, t, p, r) && p.Waiting?
    ensures Ready(s, t, r, pl)
  {
    assert TokenOk(s, t);
  }

  // The thread is where the deeds since its queueing have moved it.
  lemma WaitGoesOn(tr: Trace, t: Tid, r: Request, l: nat)
    requires Valid(tr) && l < |tr.labels| && Quiet(tr.labels, t, l, |tr.labels|)
    requires JustQueued(tr.states[l + 1], t, r) && TokensOk(tr.states[|tr.labels|])
    ensures var s, after := Shared(tr.states[l + 1]), DeedsIn(tr, l + 1, |tr.labels|);
      && Happened(s, after, tr.states[|tr.labels|])
      && Ready(tr.states[|tr.labels|], t, r, MoveAll(s, Newest(s), after))
  {
    var n := |tr.labels|;
    var start, p := Shared(tr.states[l + 1]), tr.states[l + 1].threads[t].phase;
    QuietStays(tr, t, l, n, p, r);
    QuietMoves(tr, t, l + 1, n, start, Newest(start));
    AnswerIsPassed(tr.states[n], t, p, r, MoveAll(start, Newest(start), DeedsIn(tr, l + 1, n)));
  }

  /** In every run, a read or input that found nothing and queued itself is answered as a command among
      others: with the deeds of their steps between its search and its queueing, and since. The thread
      can resume just when there is an answer, and its client gets that answer. */
  lemma RequestInRun(ls: seq<Label>, t: Tid, r: Request, k: nat, l: nat)
    requires Run(ls) && WaitOp(ls, t, r, k, l) && Quiet(ls, t, l, |ls|)
    ensures var tr := TraceOf(ls);
      var turn := Turn(DeedsIn(tr, k + 1, l), DeedsIn(tr, l + 1, |ls|));
      var (space, answer) := PerformAmong(Shared(tr.states[k]), CommandFor(r), turn);
      && Shared(After(ls)) == space
      && (Enabled(After(ls), Resume(t)) <==> answer.Some?)
      && (answer.Some? ==> OutcomeOf(After(ls), Resume(t)) == Outcome.Found(r.isInput, answer.value))
  {
    var tr := TraceOf(ls);
    RunIsTrace(ls);
    TokenInvariant(ls);
    WaitBegins(tr, t, r, k, l);
    WaitGoesOn(tr, t, r, l);
    AmongAfter(Shared(tr.states[k]), CommandFor(r), DeedsIn(tr, k + 1, l), Shared(tr.states[l + 1]),
               DeedsIn(tr, l + 1, |ls|));
  }

  // An offer that no waiting input took is the first half of its command, ...
  lemma InformIsBegin(s: State, u: Tid, x: Tuple, now: nat, s1: State, d: seq<Deed>)
    requires Leads(s, Inform(u, x), now, s1, d)
    ensures u in s1.threads && Shared(s1) == Begin(Shared(s), Write(x)).0
    ensures s1.threads[u].phase.Informed? ==>
      s1.threads[u].phase.tuple == x && Begin(Shared(s), Write(x)).1 == ToInsert(x)
  {
    StepHappens(s, Inform(u, x), now);
    HappenOne(Shared(s), Offers(x));
  }

  // ... and the insertion the second.
  lemma InsertIsComplete(s: State, u: Tid, x: Tuple, now: nat, s1: State, d: seq<Deed>)
    requires Leads(s, Insert(u), now, s1, d) && s.threads[u].phase.tuple == x
    ensures Complete(Shared(s), ToInsert(x)) == (Shared(s1), Some([]))
  {
    StepHappens(s, Insert(u), now);
    HappenOne(Shared(s), Stores(x));
  }

  lemma WriteIsPerformed(tr: Trace, u: Tid, x: Tuple, i: nat, j: nat)
    requires Valid(tr) && WriteOp(tr.labels, u, x, i, j)
    ensures PerformAround(Shared(tr.states[i]), Write(x), DeedsIn(tr, i + 1, j)) ==
            (Shared(tr.states[j + 1]), Some([]))
  {
    var s, s1, s2, s3 := tr.states[i], tr.states[i + 1], tr.states[j], tr.states[j + 1];
    LeadsAt(tr, i);
    LeadsAt(tr, j);
    InformIsBegin(s, u, x, i, s1, tr.deeds[i]);
    QuietStays(tr, u, i, j, s1.threads[u].phase, s1.threads[u].request);
    TraceHappens(tr, i + 1, j, Shared(s1));
    InsertIsComplete(s2, u, x, j, s3, tr.deeds[j]);
    HalvesJoin(s, Write(x), s1, ToInsert(x), DeedsIn(tr, i + 1, j), s2, Shared(s3), Some([]));
  }

  /** In every run, a write that no waiting input took is the command with the deeds of the others' steps
      between its offer and its insertion. */
  lemma WriteInRun(ls: seq<Label>, u: Tid, x: Tuple, i: nat, j: nat)
    requires Run(ls) && WriteOp(ls, u, x, i, j)
    ensures var tr := TraceOf(ls);
      PerformAround(Shared(tr.states[i]), Write(x), DeedsIn(tr, i + 1, j)) == (Shared(tr.states[j + 1]), Some([]))
  {
    RunIsTrace(ls);
    WriteIsPerformed(TraceOf(ls), u, x, i, j);
  }
}
