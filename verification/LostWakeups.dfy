/** When a waiter is left beside a stored tuple it matches. */
module LostWakeups {
  import opened Types
  import opened TupleSpace
  import opened Interleaving
  import opened Runs

  // A nonempty stored tuple matches the request of a queued thread.
  ghost predicate Stranded(s: State) {
    exists c: nat, t: Tid :: c < |s.store| && t in s.threads && Queued(s, t) && Meets(s, c, t)
  }

  // The output (i, j) and the wait (k, l) overlap in time.
  ghost predicate Overlap(ls: seq<Label>, u: Tid, x: Tuple, i: nat, j: nat, t: Tid, r: Request, k: nat, l: nat) {
    WriteOp(ls, u, x, i, j) && WaitOp(ls, t, r, k, l) && i < l && k < j
  }

  ghost predicate StoredSince(ls: seq<Label>, x: Tuple, j: nat)
    requires Run(ls)
  {
    forall m :: j < m <= |ls| ==> StoredAfter(ls, x, m)
  }

  ghost predicate StoredAfter(ls: seq<Label>, x: Tuple, m: nat)
    requires m <= |ls|
  {
    Run(ls[..m]) && x in After(ls[..m]).store
  }

  ghost predicate QueuedSince(ls: seq<Label>, t: Tid, l: nat)
    requires Run(ls)
  {
    forall m :: l < m <= |ls| ==> QueuedAfter(ls, t, m)
  }

  ghost predicate QueuedAfter(ls: seq<Label>, t: Tid, m: nat)
    requires m <= |ls|
  {
    Run(ls[..m]) && Queued(After(ls[..m]), t)
  }

  lemma {:induction false} StoredSinceStamp(ls: seq<Label>, c: nat)
    requires Run(ls) && c < |After(ls).store|
    ensures StoredSince(ls, After(ls).store[c], After(ls).stamps[c].insertAt)
    decreases |ls|
  {
    var s := After(ls);
    forall m | s.stamps[c].insertAt < m <= |ls|
      ensures StoredAfter(ls, s.store[c], m)
    {
      assert ls[..|ls|] == ls;
      if m < |ls| {
        TimeInvariant(Before(ls));
        var d := OldCopy(After(Before(ls)), Last(ls), |ls| - 1, c);
        StoredSinceStamp(Before(ls), d);
        assert StoredAfter(Before(ls), s.store[c], m);
        assert Before(ls)[..m] == ls[..m];
      }
    }
  }

  lemma {:induction false} QueuedSinceStamp(ls: seq<Label>, t: Tid)
    requires Run(ls) && Queued(After(ls), t) && t in After(ls).threads && After(ls).threads[t].phase.Waiting?
    ensures QueuedSince(ls, t, After(ls).threads[t].phase.enqueueAt)
    decreases |ls|
  {
    var th := After(ls).threads[t];
    forall m | th.phase.enqueueAt < m <= |ls|
      ensures QueuedAfter(ls, t, m)
    {
      assert ls[..|ls|] == ls;
      if m < |ls| {
        var s := After(Before(ls));
        TokenInvariant(Before(ls));
        HistoryInvariant(ls);
        assert ThreadHistory(ls, t, th);
        assert Last(ls).actor != t;
        assert t in s.threads && TokenOk(s, t);
        if Last(ls).Inform? {
          InformQueue(s, Last(ls).actor, Last(ls).tuple, |ls| - 1);
        }
        QueuedSinceStamp(Before(ls), t);
        assert QueuedAfter(Before(ls), t, m);
        assert Before(ls)[..m] == ls[..m];
      }
    }
  }

  /** A stored tuple that matches a queued waiter was offered to the queue before the waiter was
      queued, and inserted after the waiter had searched. */
  lemma StrandedWaiterOverlaps(ls: seq<Label>, c: nat, t: Tid) returns (u: Tid, i: nat, j: nat, k: nat, l: nat)
    requires Run(ls) && c < |After(ls).store| && Queued(After(ls), t)
    requires t in After(ls).threads && Meets(After(ls), c, t)
    ensures Overlap(ls, u, After(ls).store[c], i, j, t, After(ls).threads[t].request, k, l)
    ensures StoredSince(ls, After(ls).store[c], j) && QueuedSince(ls, t, l)
  {
    var s := After(ls);
    TokenInvariant(ls);
    TimeInvariant(ls);
    HistoryInvariant(ls);
    assert TokenOk(s, t) && CopyOk(s, c, t);
    assert ThreadHistory(ls, t, s.threads[t]) && CopyHistory(ls, s.store[c], s.stamps[c]);
    StoredSinceStamp(ls, c);
    QueuedSinceStamp(ls, t);
    u, i, j := s.stamps[c].writer, s.stamps[c].informAt, s.stamps[c].insertAt;
    k, l := s.threads[t].phase.searchAt, s.threads[t].phase.enqueueAt;
  }

  // A thread that stayed queued since l still waits for what it searched for before l.
  lemma QueuedRequest(ls: seq<Label>, t: Tid, r: Request, k: nat, l: nat)
    requires Run(ls) && WaitOp(ls, t, r, k, l) && QueuedSince(ls, t, l)
    ensures t in After(ls).threads && After(ls).threads[t].request == r
  {
    var s := After(ls);
    TokenInvariant(ls);
    HistoryInvariant(ls);
    assert QueuedAfter(ls, t, |ls|) && ls[..|ls|] == ls;
    assert TokenOk(s, t) && ThreadHistory(ls, t, s.threads[t]);
    var l1 := s.threads[t].phase.enqueueAt;
    if l < l1 {
      assert QueuedAfter(ls, t, l1);
      PrefixRuns(ls, l1);
      TokenInvariant(ls[..l1]);
    }
  }

  /** Lost wake-ups are exactly the overlaps whose tuple and waiter are both still there. */
  lemma LostWakeupsAreOverlaps(ls: seq<Label>)
    requires Run(ls)
    ensures Stranded(After(ls)) <==>
            exists u, x, i, j, t, r, k, l ::
              && Overlap(ls, u, x, i, j, t, r, k, l)
              && x != [] && MatchesTuple(r.pattern, x)
              && StoredSince(ls, x, j) && QueuedSince(ls, t, l)
  {
    var s := After(ls);
    if Stranded(s) {
      var c: nat, t: Tid :| c < |s.store| && t in s.threads && Queued(s, t) && Meets(s, c, t);
      var u, i, j, k, l := StrandedWaiterOverlaps(ls, c, t);
    }
    if u, x, i, j, t, r, k, l :|
        && Overlap(ls, u, x, i, j, t, r, k, l)
        && x != [] && MatchesTuple(r.pattern, x)
        && StoredSince(ls, x, j) && QueuedSince(ls, t, l)
    {
      QueuedRequest(ls, t, r, k, l);
      assert StoredAfter(ls, x, |ls|) && QueuedAfter(ls, t, |ls|) && ls[..|ls|] == ls;
      var c :| 0 <= c < |s.store| && s.store[c] == x;
      assert Meets(s, c, t);
    }
  }

  /** If no output of a matching tuple overlaps the search and enqueue of a waiter, no waiter is ever
      stranded. */
  lemma SeparateOperationsStrandNobody(ls: seq<Label>, m: nat)
    requires Run(ls) && m <= |ls|
    requires forall u, x, i, j, t, r, k, l ::
               Overlap(ls, u, x, i, j, t, r, k, l) ==> x == [] || !MatchesTuple(r.pattern, x)
    ensures Run(ls[..m]) && !Stranded(After(ls[..m]))
  {
    PrefixRuns(ls, m);
    var s := After(ls[..m]);
    if Stranded(s) {
      var c: nat, t: Tid :| c < |s.store| && t in s.threads && Queued(s, t) && Meets(s, c, t);
      var u, i, j, k, l := StrandedWaiterOverlaps(ls[..m], c, t);
      OverlapGrows(ls, m, u, s.store[c], i, j, t, s.threads[t].request, k, l);
    }
  }

  lemma OverlapGrows(ls: seq<Label>, m: nat,
                     u: Tid, x: Tuple, i: nat, j: nat, t: Tid, r: Request, k: nat, l: nat)
    requires m <= |ls| && Overlap(ls[..m], u, x, i, j, t, r, k, l)
    ensures Overlap(ls, u, x, i, j, t, r, k, l)
  {
    assert forall n :: 0 <= n < m ==> ls[..m][n] == ls[n];
  }

  // The overlap takes effect: right after its last step the tuple is stored and the waiter, who took
  // no step since, is queued.
  ghost predicate Strands(ls: seq<Label>, u: Tid, x: Tuple, i: nat, j: nat, t: Tid, r: Request, k: nat, l: nat) {
    && Overlap(ls, u, x, i, j, t, r, k, l)
    && x != [] && MatchesTuple(r.pattern, x)
    && var n := (if j < l then l else j) + 1;
       StoredAfter(ls, x, n) && QueuedAfter(ls, t, n) && Quiet(ls, t, l, n)
  }

  ghost predicate StrandedAfter(ls: seq<Label>, m: nat)
    requires m <= |ls|
  {
    Run(ls[..m]) && Stranded(After(ls[..m]))
  }

  // A thread that is queued and took no step since it queued itself waits for what it searched for.
  lemma QuietRequest(ls: seq<Label>, t: Tid, r: Request, k: nat, l: nat)
    requires Run(ls) && WaitOp(ls, t, r, k, l) && Quiet(ls, t, l, |ls|) && Queued(After(ls), t)
    ensures t in After(ls).threads && After(ls).threads[t].request == r
  {
    TokenInvariant(ls);
    HistoryInvariant(ls);
    var th := After(ls).threads[t];
    assert TokenOk(After(ls), t) && ThreadHistory(ls, t, th);
    var k1, l1 := th.phase.searchAt, th.phase.enqueueAt;
    assert l1 == l && k1 == k;
  }

  /** Somebody is stranded at some moment of a run just when an output and a wait overlap in time
      whose tuple is stored and whose waiter is queued right after the later of their last steps. */
  lemma StrandedIffOverlapTakesEffect(ls: seq<Label>)
    requires Run(ls)
    ensures (exists m: nat :: m <= |ls| && StrandedAfter(ls, m)) <==>
            exists u, x, i, j, t, r, k, l :: Strands(ls, u, x, i, j, t, r, k, l)
  {
    if m: nat :| m <= |ls| && StrandedAfter(ls, m) {
      StrandedByOverlap(ls, m);
    }
    if u, x, i, j, t, r, k, l :| Strands(ls, u, x, i, j, t, r, k, l) {
      OverlapStrands(ls, u, x, i, j, t, r, k, l);
    }
  }

  lemma StrandedByOverlap(ls: seq<Label>, m: nat)
    requires m <= |ls| && StrandedAfter(ls, m)
    ensures exists u, x, i, j, t, r, k, l :: Strands(ls, u, x, i, j, t, r, k, l)
  {
    var pre := ls[..m];
    var s := After(pre);
    var c: nat, t: Tid :| c < |s.store| && t in s.threads && Queued(s, t) && Meets(s, c, t);
    var u, i, j, k, l := StrandedWaiterOverlaps(pre, c, t);
    var x, r := s.store[c], s.threads[t].request;
    TakesEffect(ls, m, u, x, i, j, t, r, k, l);
  }

  lemma TakesEffect(ls: seq<Label>, m: nat,
                    u: Tid, x: Tuple, i: nat, j: nat, t: Tid, r: Request, k: nat, l: nat)
    requires m <= |ls| && Run(ls[..m]) && Overlap(ls[..m], u, x, i, j, t, r, k, l)
    requires StoredSince(ls[..m], x, j) && QueuedSince(ls[..m], t, l) && x != [] && MatchesTuple(r.pattern, x)
    ensures Strands(ls, u, x, i, j, t, r, k, l)
  {
    var n := (if j < l then l else j) + 1;
    assert n <= m;
    assert StoredAfter(ls[..m], x, n) && QueuedAfter(ls[..m], t, n);
    assert ls[..m][..n] == ls[..n];
    OverlapGrows(ls, m, u, x, i, j, t, r, k, l);
    NoStepWhileQueued(ls[..m], t, l);
    forall q | l < q < n ensures ls[q].actor != t {
      assert ls[..m][q] == ls[q];
    }
  }

  // Who stayed queued since l took no step.
  lemma NoStepWhileQueued(ls: seq<Label>, t: Tid, l: nat)
    requires Run(ls) && QueuedSince(ls, t, l)
    ensures Quiet(ls, t, l, |ls|)
  {
    forall q | l < q < |ls| ensures ls[q].actor != t {
      assert QueuedAfter(ls, t, q) && QueuedAfter(ls, t, q + 1);
      PrefixRuns(ls, q);
      TokenInvariant(ls[..q]);
      assert TokenOk(After(ls[..q]), t);
    }
  }

  lemma OverlapStrands(ls: seq<Label>, u: Tid, x: Tuple, i: nat, j: nat, t: Tid, r: Request, k: nat, l: nat)
    requires Strands(ls, u, x, i, j, t, r, k, l)
    ensures exists m: nat :: m <= |ls| && StrandedAfter(ls, m)
  {
    var n := (if j < l then l else j) + 1;
    var pre := ls[..n];
    assert forall q :: 0 <= q < n ==> pre[q] == ls[q];
    assert WaitOp(pre, t, r, k, l) && Quiet(pre, t, l, n);
    QuietRequest(pre, t, r, k, l);
    var s := After(pre);
    var c :| 0 <= c < |s.store| && s.store[c] == x;
    assert Meets(s, c, t);
    assert StrandedAfter(ls, n);
  }

  // ---- The steps that strand ---------------------------------------------------------

  // An insertion of a tuple that somebody queued waits for, or queueing beside a matching tuple.
  ghost predicate StrandsNow(s: State, l: Label)
    requires Enabled(s, l)
  {
    match l
    case Insert(u) =>
      var x := s.threads[u].phase.tuple;
      && x != [] && !Holding(s.store, x)
      && exists t :: Queued(s, t) && t in s.threads && MatchesTuple(s.threads[t].request.pattern, x)
    case Enqueue(t) => exists c :: 0 <= c < |s.store| && Meets(s, c, t)
    case _ => false
  }

  // No other step leaves anybody stranded who was not.
  lemma StepStrands(s: State, l: Label, now: nat)
    requires TokensOk(s) && Enabled(s, l) && |s.stamps| == |s.store|
    ensures StrandsNow(s, l) ==> Stranded(Apply(s, l, now))
    ensures Stranded(Apply(s, l, now)) ==> StrandsNow(s, l) || Stranded(s)
  {
    var s1 := Apply(s, l, now);
    if StrandsNow(s, l) {
      StrandsAtOnce(s, l, now);
    }
    if Stranded(s1) {
      var c: nat, t: Tid :| c < |s1.store| && t in s1.threads && Queued(s1, t) && Meets(s1, c, t);
      if l == Enqueue(t) {
        assert Meets(s, c, t);
      } else {
        StaysQueued(s, l, now, t);
        if l.Insert? && c == |s.store| {
          assert MatchesTuple(s.threads[t].request.pattern, s1.store[c]);
        } else {
          var d := OldCopy(s, l, now, c);
          assert Meets(s, d, t);
        }
      }
    }
  }

  lemma StrandsAtOnce(s: State, l: Label, now: nat)
    requires TokensOk(s) && Enabled(s, l) && |s.stamps| == |s.store| && StrandsNow(s, l)
    ensures Stranded(Apply(s, l, now))
  {
    var s1 := Apply(s, l, now);
    if l.Insert? {
      var x := s.threads[l.actor].phase.tuple;
      var t :| Queued(s, t) && t in s.threads && MatchesTuple(s.threads[t].request.pattern, x);
      assert Queued(s1, t) && Meets(s1, |s.store|, t);
    } else {
      var c :| 0 <= c < |s.store| && Meets(s, c, l.actor);
      assert s1.queue[|s.queue|] == l.actor;
      assert Queued(s1, l.actor) && Meets(s1, c, l.actor);
    }
  }

  // Who is queued after the step of another thread was queued before, for the same request.
  lemma StaysQueued(s: State, l: Label, now: nat, t: Tid)
    requires TokensOk(s) && Enabled(s, l) && |s.stamps| == |s.store| && l != Enqueue(t)
    requires Queued(Apply(s, l, now), t) && t in Apply(s, l, now).threads
    ensures Queued(s, t) && t in s.threads && Apply(s, l, now).threads[t].request == s.threads[t].request
  {
    if l.Inform? {
      InformQueue(s, l.actor, l.tuple, now);
    }
    assert t in s.threads && TokenOk(s, t);
  }

  /** Somebody is stranded at some moment of a run just when one of its steps inserts a nonempty tuple,
      equal to none stored, that a queued request matches, or queues a request that a nonempty stored
      tuple matches. */
  lemma {:induction false} StrandedIffStepStrands(ls: seq<Label>)
    requires Run(ls)
    ensures (exists m: nat :: m <= |ls| && StrandedAfter(ls, m)) <==> exists m: nat :: m < |ls| && StrandsAt(ls, m)
  {
    if m: nat :| m < |ls| && StrandsAt(ls, m) {
      PrefixRuns(ls, m);
      TokenInvariant(ls[..m]);
      StepStrands(After(ls[..m]), ls[m], m);
      assert StrandedAfter(ls, m + 1);
    }
    if m: nat :| m <= |ls| && StrandedAfter(ls, m) {
      SomeStepStrands(ls, m);
    }
  }

  ghost predicate StrandsAt(ls: seq<Label>, m: nat)
    requires m < |ls|
  {
    Run(ls[..m]) && Enabled(After(ls[..m]), ls[m]) && StrandsNow(After(ls[..m]), ls[m])
  }

  lemma {:induction false} SomeStepStrands(ls: seq<Label>, m: nat)
    requires Run(ls) && m <= |ls| && StrandedAfter(ls, m)
    ensures exists n: nat :: n < |ls| && StrandsAt(ls, n)
    decreases m
  {
    assert m > 0;
    PrefixRuns(ls, m - 1);
    TokenInvariant(ls[..m - 1]);
    StepStrands(After(ls[..m - 1]), ls[m - 1], m - 1);
    if Stranded(After(ls[..m - 1])) {
      SomeStepStrands(ls, m - 1);
    } else {
      assert StrandsAt(ls, m - 1);
    }
  }

  // Thread 1 searches, thread 0 offers and inserts, thread 1 queues itself.
  const SEVEN: Tuple := [IntElem(7)]
  const ANY_INT: Request := Request([Pattern(IntElem(0), All)], false)
  const LOST: seq<Label> := [
    Spawn(0), Spawn(1), Search(1, ANY_INT), Inform(0, SEVEN), Insert(0), Enqueue(1)]

  // After the first four steps: thread 1 found nothing, thread 0 has its tuple still to insert.
  lemma LostSoFar()
    ensures Run(LOST[..4])
    ensures After(LOST[..4]) == State(map[0 := Thread(Informed(SEVEN, 3), Request([], false), true, []),
                                          1 := Thread(Searched(2), ANY_INT, true, [])], [], [], [])
  {
    var r0: seq<Label> := [];
    var r2 := r0 + [Spawn(0)] + [Spawn(1)];
    Extend(r0, Spawn(0));
    Extend(r0 + [Spawn(0)], Spawn(1));
    var r3 := r2 + [Search(1, ANY_INT)];
    Extend(r2, Search(1, ANY_INT));
    Extend(r3, Inform(0, SEVEN));
    InformNobody(After(r3), 0, SEVEN, 3);
    assert LOST[..4] == r3 + [Inform(0, SEVEN)];
  }

  /** The code loses wake-ups: a six-step run strands a reader beside the tuple it asks for. */
  lemma WakeupsCanBeLost()
    ensures Run(LOST) && Stranded(After(LOST))
  {
    LostSoFar();
    var r5 := LOST[..4] + [Insert(0)];
    Extend(LOST[..4], Insert(0));
    Extend(r5, Enqueue(1));
    assert LOST == r5 + [Enqueue(1)];
    var s := After(LOST);
    assert s.queue == [1] && Queued(s, 1) && Meets(s, 0, 1);
  }
}
