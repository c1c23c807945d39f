/** How long a queued thread can be passed over. */
module Overtaking {
  import opened Types
  import opened TupleSpace
  import opened Interleaving
  import opened Runs

  function MatchingOffer(l: Label, pattern: seq<Pattern>): nat {
    if l.Inform? && MatchesTuple(pattern, l.tuple) then 1 else 0
  }

  // How many of the labels from n up to k offer a tuple that matches the pattern.
  function MatchingOffers(ls: seq<Label>, n: nat, k: nat, pattern: seq<Pattern>): nat
    requires n <= k <= |ls|
    decreases k
  {
    if n == k then 0 else MatchingOffers(ls, n, k - 1, pattern) + MatchingOffer(ls[k - 1], pattern)
  }

  /** It is the number of these labels. */
  lemma {:induction false} MatchingOffersCount(ls: seq<Label>, n: nat, k: nat, pattern: seq<Pattern>)
    requires n <= k <= |ls|
    ensures MatchingOffers(ls, n, k, pattern) ==
            |set h | n <= h < k && ls[h].Inform? && MatchesTuple(pattern, ls[h].tuple)|
    decreases k
  {
    var some := set h | n <= h < k && ls[h].Inform? && MatchesTuple(pattern, ls[h].tuple);
    if n == k {
      assert some == {};
    } else {
      var fewer := set h | n <= h < k - 1 && ls[h].Inform? && MatchesTuple(pattern, ls[h].tuple);
      MatchingOffersCount(ls, n, k - 1, pattern);
      assert some == if MatchingOffer(ls[k - 1], pattern) == 1 then fewer + {k - 1} else fewer;
    }
  }

  function Position(q: seq<Tid>, t: Tid): (i: nat)
    requires t in q
    ensures i < |q| && q[i] == t
  {
    if q[0] == t then 0 else 1 + Position(q[1..], t)
  }

  lemma PositionIs(q: seq<Tid>, i: nat, t: Tid)
    requires Distinct(q) && i < |q| && q[i] == t
    ensures Position(q, t) == i
  {
  }

  // A waiter at position i that is not served moves up by those served in front of it.
  lemma UnservedMovesUp(q: seq<Tid>, rs: seq<Request>, x: Tuple, i: nat) returns (i1: nat)
    requires i < |q| == |rs| && !ServedAt(rs, x, i)
    ensures i1 < |Remaining(q, Served(rs, x))| && Remaining(q, Served(rs, x))[i1] == q[i]
    ensures i1 <= i && (MatchesTuple(rs[i].pattern, x) ==> i1 < i)
  {
    var marks, c := Served(rs, x), FirstTaker(rs, x);
    i1 := CountUnmarked(marks, i);
    UnmarkedAt(q, marks, |q|, i);
    CountUnmarkedGrows(marks, 0, i);
    if MatchesTuple(rs[i].pattern, x) {
      assert c < i && marks[c];
      CountUnmarkedGrows(marks, 0, c);
      CountUnmarkedGrows(marks, c, i);
    }
  }

  /** An offer never moves a waiter back; if it matches and does not serve it, it moves it forward. */
  lemma OfferMovesForward(s: State, u: Tid, x: Tuple, now: nat, t: Tid)
    requires TokensOk(s) && Enabled(s, Inform(u, x))
    requires Queued(s, t) && Queued(InformStep(s, u, x, now), t)
    ensures var i, i1 := Position(s.queue, t), Position(InformStep(s, u, x, now).queue, t);
      i1 <= i && (MatchesTuple(RequestOf(s, t).pattern, x) ==> i1 < i)
  {
    var i := Position(s.queue, t);
    InformQueue(s, u, x, now);
    var i1 := UnservedMovesUp(s.queue, Requests(s), x, i);
    PositionIs(InformStep(s, u, x, now).queue, i1, t);
  }

  // Any other step leaves a queued thread where it is.
  lemma OtherStepsKeepPosition(s: State, l: Label, now: nat, t: Tid)
    requires TokensOk(s) && Enabled(s, l) && |s.stamps| == |s.store|
    requires !l.Inform? && Queued(s, t)
    ensures Queued(Apply(s, l, now), t) && Position(Apply(s, l, now).queue, t) == Position(s.queue, t)
  {
    var q1 := Apply(s, l, now).queue;
    assert TokenOk(s, t);
    assert q1[Position(s.queue, t)] == t;
    if l.Enqueue? {
      StepKeepsTokens(s, l, now);
    }
  }

  // A queued thread does nothing before it is served, and its request stays.
  lemma QueuedThreadSleeps(s: State, l: Label, now: nat, t: Tid)
    requires TokensOk(s) && Enabled(s, l) && |s.stamps| == |s.store| && Queued(s, t)
    ensures l.actor != t && t in Apply(s, l, now).threads
    ensures Apply(s, l, now).threads[t].request == s.threads[t].request
  {
    assert TokenOk(s, t);
  }

  lemma StepMovesForward(s: State, l: Label, now: nat, t: Tid)
    requires TokensOk(s) && Enabled(s, l) && |s.stamps| == |s.store|
    requires Queued(s, t) && Queued(Apply(s, l, now), t)
    ensures RequestOf(Apply(s, l, now), t) == RequestOf(s, t)
    ensures Position(Apply(s, l, now).queue, t) + MatchingOffer(l, RequestOf(s, t).pattern) <= Position(s.queue, t)
  {
    QueuedThreadSleeps(s, l, now, t);
    if l.Inform? {
      OfferMovesForward(s, l.actor, l.tuple, now, t);
    } else {
      OtherStepsKeepPosition(s, l, now, t);
    }
  }

  // The state after the first m steps.
  ghost function At(ls: seq<Label>, m: nat): (s: State)
    requires Run(ls) && m <= |ls|
  {
    PrefixRuns(ls, m);
    After(ls[..m])
  }

  ghost predicate QueuedAt(ls: seq<Label>, m: nat, t: Tid)
    requires Run(ls) && m <= |ls|
  {
    Queued(At(ls, m), t)
  }

  lemma NextStep(ls: seq<Label>, m: nat)
    requires Run(ls) && m < |ls|
    ensures TokensOk(At(ls, m)) && |At(ls, m).stamps| == |At(ls, m).store| && Enabled(At(ls, m), ls[m])
    ensures At(ls, m + 1) == Apply(At(ls, m), ls[m], m)
  {
    PrefixRuns(ls, m);
    TokenInvariant(ls[..m]);
  }

  lemma OneStepForward(ls: seq<Label>, m: nat, next: nat, t: Tid)
    requires Run(ls) && m < |ls| && next == m + 1 && Queued(At(ls, m), t) && Queued(At(ls, next), t)
    ensures RequestOf(At(ls, next), t) == RequestOf(At(ls, m), t)
    ensures Position(At(ls, next).queue, t) + MatchingOffer(ls[m], RequestOf(At(ls, m), t).pattern)
            <= Position(At(ls, m).queue, t)
  {
    NextStep(ls, m);
    StepMovesForward(At(ls, m), ls[m], m, t);
  }

  // While t stays queued, its position and the matching offers so far add up to at most
  // the position it had.
  lemma {:induction false} PositionBound(ls: seq<Label>, n: nat, k: nat, t: Tid)
    requires Run(ls) && n <= k <= |ls|
    requires forall m :: n <= m <= k ==> QueuedAt(ls, m, t)
    ensures Queued(At(ls, n), t) && Queued(At(ls, k), t)
    ensures RequestOf(At(ls, k), t) == RequestOf(At(ls, n), t)
    ensures Position(At(ls, k).queue, t) + MatchingOffers(ls, n, k, RequestOf(At(ls, n), t).pattern)
            <= Position(At(ls, n).queue, t)
    decreases k
  {
    assert QueuedAt(ls, k, t) && QueuedAt(ls, n, t);
    if n < k {
      PositionBound(ls, n, k - 1, t);
      assert QueuedAt(ls, k - 1, t);
      OneStepForward(ls, k - 1, k, t);
    }
  }

  lemma {:induction false} HoldsUntil(p: nat -> bool, n: nat, end: nat) returns (m: nat)
    requires n <= end && p(n)
    ensures n <= m <= end && (forall h :: n <= h <= m ==> p(h))
    ensures m < end ==> !p(m + 1)
    decreases end - n
  {
    if n < end && p(n + 1) {
      m := HoldsUntil(p, n + 1, end);
    } else {
      m := n;
    }
  }

  // t stays queued up to m, and leaves the queue with step m if there is one.
  lemma StaysUntil(ls: seq<Label>, n: nat, t: Tid) returns (m: nat)
    requires Run(ls) && n <= |ls| && QueuedAt(ls, n, t)
    ensures n <= m <= |ls| && (forall h :: n <= h <= m ==> QueuedAt(ls, h, t))
    ensures m < |ls| ==> !QueuedAt(ls, m + 1, t)
  {
    var queued := (h: nat) => h <= |ls| && QueuedAt(ls, h, t);
    m := HoldsUntil(queued, n, |ls|);
    forall h: nat | n <= h <= m ensures QueuedAt(ls, h, t) {
      assert queued(h);
    }
    assert m < |ls| ==> !queued(m + 1);
  }

  /** A waiter at position i of the queue is served by the (i+1)-th later offer that matches it,
      if not before. */
  lemma BoundedOvertaking(ls: seq<Label>, n: nat, t: Tid) returns (m: nat)
    requires Run(ls) && n <= |ls| && QueuedAt(ls, n, t)
    requires MatchingOffers(ls, n, |ls|, RequestOf(At(ls, n), t).pattern) > Position(At(ls, n).queue, t)
    ensures n <= m < |ls| && ls[m].Inform? && Queued(At(ls, m), t) && ServedBy(At(ls, m), ls[m].tuple, t)
    ensures forall h :: n <= h <= m ==> QueuedAt(ls, h, t)
    ensures MatchingOffers(ls, n, m, RequestOf(At(ls, n), t).pattern) <= Position(At(ls, n).queue, t)
  {
    m := StaysUntil(ls, n, t);
    PositionBound(ls, n, m, t);
    NextStep(ls, m);
    LeavesWhenServed(At(ls, m), ls[m], m, t);
  }

  lemma LeavesWhenServed(s: State, l: Label, now: nat, t: Tid)
    requires TokensOk(s) && Enabled(s, l) && |s.stamps| == |s.store|
    requires Queued(s, t) && !Queued(Apply(s, l, now), t)
    ensures l.Inform? && ServedBy(s, l.tuple, t)
  {
    if l.Inform? {
      InformQueue(s, l.actor, l.tuple, now);
    } else {
      OtherStepsKeepPosition(s, l, now, t);
    }
  }
}
