/** Runs in which nothing comes between the critical sections of one operation: the interleaving
    model then does what `Perform` says, one command at a time. */
module Serial {
  import opened Types
  import opened TupleSpace
  import opened Interleaving
  import opened Others

  // What the shared objects hold, without the threads.
  function Shared(s: State): Space {
    Space(s.store, Requests(s))
  }

  // The steps of one command of thread t.
  function WriteSteps(s: State, t: Tid, x: Tuple): seq<Label> {
    if TakenBy(s, x) then [Inform(t, x)] else [Inform(t, x), Insert(t)]
  }

  function RequestSteps(s: State, t: Tid, r: Request): seq<Label> {
    if FirstMatch(s.store, r.pattern).Some? && FirstMatch(s.store, r.pattern) != Some([])
    then [Search(t, r)] else [Search(t, r), Enqueue(t)]
  }

  predicate CanStep(s: State, ls: seq<Label>, now: nat)
    decreases |ls|
  {
    |s.stamps| == |s.store| && (ls == [] || (Enabled(s, ls[0]) && CanStep(Apply(s, ls[0], now), ls[1..], now + 1)))
  }

  function Steps(s: State, ls: seq<Label>, now: nat): State
    requires CanStep(s, ls, now)
    decreases |ls|
  {
    if ls == [] then s else Steps(Apply(s, ls[0], now), ls[1..], now + 1)
  }

  lemma OneStep(s: State, l: Label, now: nat)
    requires Enabled(s, l) && |s.stamps| == |s.store| && |Apply(s, l, now).stamps| == |Apply(s, l, now).store|
    ensures CanStep(s, [l], now) && Steps(s, [l], now) == Apply(s, l, now)
  {
    assert [l][1..] == [];
    assert CanStep(Apply(s, l, now), [], now + 1);
  }

  lemma InformedRequests(s: State, t: Tid, x: Tuple, now: nat)
    requires t in s.threads
    ensures Requests(InformStep(s, t, x, now)) == Remaining(Requests(s), Served(Requests(s), x))
  {
    var s1, rs := InformStep(s, t, x, now), Requests(s);
    var marks := Served(rs, x);
    UnmarkedLength(s.queue, marks, |s.queue|);
    UnmarkedLength(rs, marks, |s.queue|);
    forall k | 0 <= k < |s1.queue| ensures Requests(s1)[k] == Remaining(rs, marks)[k] {
      var i := RemainingParallel(s.queue, rs, marks, k);
    }
  }

  /** Offer and insert with nothing in between are the write of `Perform`. */
  lemma SerialWrite(s: State, t: Tid, x: Tuple, now: nat)
    requires TokensOk(s) && |s.stamps| == |s.store| && Enabled(s, Inform(t, x))
    ensures CanStep(s, WriteSteps(s, t, x), now)
    ensures Shared(Steps(s, WriteSteps(s, t, x), now)) == Perform(Shared(s), Write(x)).0
  {
    var s1 := InformStep(s, t, x, now);
    InformedRequests(s, t, x, now);
    if TakenBy(s, x) {
      OneStep(s, Inform(t, x), now);
    } else {
      var s2 := InsertStep(s1, t, now + 1);
      OneStep(s1, Insert(t), now + 1);
      assert Requests(s2) == Requests(s1);
    }
  }

  /** Search and enqueue with nothing in between are the read or input of `Perform`: same database,
      same queue, and the outcome of the search is the answer. */
  lemma SerialRequest(s: State, t: Tid, r: Request, now: nat)
    requires TokensOk(s) && |s.stamps| == |s.store| && Enabled(s, Search(t, r))
    ensures CanStep(s, RequestSteps(s, t, r), now)
    ensures Shared(Steps(s, RequestSteps(s, t, r), now)) == Perform(Shared(s), CommandFor(r)).0
    ensures OutcomeOf(s, Search(t, r)) ==
            var answer := Perform(Shared(s), CommandFor(r)).1;
            if answer.Some? then Found(r.isInput, answer.value) else Silent
  {
    var s1 := SearchStep(s, t, r, now);
    if |RequestSteps(s, t, r)| == 1 {
      OneStep(s, Search(t, r), now);
    } else {
      var s2 := Apply(s1, Enqueue(t), now + 1);
      StepKeepsTokens(s, Search(t, r), now);
      assert TokenOk(s1, t) && !Queued(s1, t);
      OneStep(s1, Enqueue(t), now + 1);
      assert Requests(s2) == Requests(s1) + [r];
    }
  }
}
