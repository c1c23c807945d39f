/** Every accepted output is stored, on its way to one input, or returned by one input. */
module Conservation {
  import opened Types
  import opened TupleSpace
  import opened Interleaving
  import opened Runs

  // How many steps of the run had the outcome o.
  ghost function Count(ls: seq<Label>, o: Outcome): nat
    requires Run(ls)
  {
    if ls == [] then 0
    else Count(Before(ls), o) + if OutcomeOf(After(Before(ls)), Last(ls)) == o then 1 else 0
  }

  // An input removes the empty tuple but takes it for "not found".
  ghost predicate Swallows(s: State, l: Label) {
    l.Search? && l.request.isInput && FirstMatch(s.store, l.request.pattern) == Some([])
  }

  ghost function CountSwallowed(ls: seq<Label>): nat
    requires Run(ls)
  {
    if ls == [] then 0
    else CountSwallowed(Before(ls)) + if Swallows(After(Before(ls)), Last(ls)) then 1 else 0
  }

  predicate Carries(th: Thread, x: Tuple) {
    !th.locked && th.request.isInput && th.passed == x
  }

  // The inputs that were served x and have not resumed.
  function Carriers(s: State, x: Tuple): set<Tid> {
    set t | t in s.threads && Carries(s.threads[t], x)
  }

  lemma RemovedCopy(store: seq<Tuple>, i: nat)
    requires i < |store|
    ensures multiset(RemoveAt(store, i)) + multiset{store[i]} == multiset(store)
  {
    assert store == store[..i] + ([store[i]] + store[i + 1..]);
  }

  function Bit(b: bool): nat {
    if b then 1 else 0
  }

  // Of the threads an output serves, only the first taker is an input.
  lemma ServedInputIsTaker(s: State, x: Tuple, u: Tid)
    requires ServedBy(s, x, u) && RequestOf(s, u).isInput
    ensures TakenBy(s, x) && s.queue[FirstTaker(Requests(s), x)] == u
  {
    var i :| 0 <= i < |s.queue| && s.queue[i] == u && ServedAt(Requests(s), x, i);
    assert Takes(Requests(s)[i], x);
  }

  lemma TakerIsServed(s: State, x: Tuple)
    requires TakenBy(s, x)
    ensures ServedBy(s, x, s.queue[FirstTaker(Requests(s), x)])
    ensures RequestOf(s, s.queue[FirstTaker(Requests(s), x)]).isInput
  {
    var c := FirstTaker(Requests(s), x);
    assert ServedAt(Requests(s), x, c) && Requests(s)[c] == RequestOf(s, s.queue[c]);
  }

  lemma InformCarrier(s: State, t: Tid, x: Tuple, now: nat, y: Tuple, u: Tid)
    requires TokensOk(s) && Enabled(s, Inform(t, x)) && u in s.threads
    ensures Carries(InformStep(s, t, x, now).threads[u], y) <==>
            Carries(s.threads[u], y)
            || (x == y && TakenBy(s, x) && u == s.queue[FirstTaker(Requests(s), x)])
  {
    assert TokenOk(s, t) && TokenOk(s, u) && !Queued(s, t);
    if ServedBy(s, x, u) {
      assert Queued(s, u);
      if s.threads[u].request.isInput {
        ServedInputIsTaker(s, x, u);
      }
    }
    if TakenBy(s, x) {
      TakerIsServed(s, x);
    }
  }

  lemma InformCarriers(s: State, t: Tid, x: Tuple, now: nat, y: Tuple)
    requires TokensOk(s) && Enabled(s, Inform(t, x))
    ensures |Carriers(InformStep(s, t, x, now), y)| == |Carriers(s, y)| + Bit(TakenBy(s, x) && x == y)
  {
    var added := if TakenBy(s, x) && x == y then {s.queue[FirstTaker(Requests(s), x)]} else {};
    InformCarrierSet(s, t, x, now, y, added);
    if TakenBy(s, x) {
      TakerIsQueued(s, x);
    }
  }

  lemma InformCarrierSet(s: State, t: Tid, x: Tuple, now: nat, y: Tuple, added: set<Tid>)
    requires TokensOk(s) && Enabled(s, Inform(t, x))
    requires added == if TakenBy(s, x) && x == y then {s.queue[FirstTaker(Requests(s), x)]} else {}
    ensures Carriers(InformStep(s, t, x, now), y) == Carriers(s, y) + added
  {
    var s1 := InformStep(s, t, x, now);
    if TakenBy(s, x) {
      TakerIsQueued(s, x);
    }
    forall u | u in s.threads
      ensures Carries(s1.threads[u], y) <==> Carries(s.threads[u], y) || u in added
    {
      InformCarrier(s, t, x, now, y, u);
    }
  }

  lemma TakerIsQueued(s: State, x: Tuple)
    requires TokensOk(s) && TakenBy(s, x)
    ensures var w := s.queue[FirstTaker(Requests(s), x)]; w in s.threads && s.threads[w].locked
  {
    var w := s.queue[FirstTaker(Requests(s), x)];
    assert Queued(s, w) && TokenOk(s, w);
  }

  lemma SearchConserves(s: State, t: Tid, r: Request, now: nat, x: Tuple)
    requires TokensOk(s) && Enabled(s, Search(t, r)) && |s.stamps| == |s.store|
    ensures Conserves(s, Search(t, r), now, x)
  {
    var s1 := SearchStep(s, t, r, now);
    assert TokenOk(s, t);
    assert Carriers(s1, x) == Carriers(s, x);
    var i := MatchIndex(s.store, r.pattern);
    if i < |s.store| {
      RemovedCopy(s.store, i);
    }
  }

  lemma InsertConserves(s: State, t: Tid, now: nat, x: Tuple)
    requires TokensOk(s) && Enabled(s, Insert(t)) && |s.stamps| == |s.store|
    ensures Conserves(s, Insert(t), now, x)
  {
    assert TokenOk(s, t);
    assert Carriers(InsertStep(s, t, now), x) == Carriers(s, x);
  }

  ghost predicate Conserves(s: State, l: Label, now: nat, x: Tuple)
    requires Enabled(s, l) && |s.stamps| == |s.store|
  {
    var s1, o := Apply(s, l, now), OutcomeOf(s, l);
    multiset(s.store)[x] + |Carriers(s, x)| + Bit(o == Wrote(x, true))
    == multiset(s1.store)[x] + |Carriers(s1, x)| + Bit(o == Found(true, x)) + Bit(x == [] && Swallows(s, l))
  }

  lemma StepConserves(s: State, l: Label, now: nat, x: Tuple)
    requires TokensOk(s) && Enabled(s, l) && |s.stamps| == |s.store|
    ensures Conserves(s, l, now, x)
  {
    assert l.actor in s.threads ==> TokenOk(s, l.actor);
    match l
    case Inform(t, x1) => InformCarriers(s, t, x1, now, x);
    case Search(t, r) => SearchConserves(s, t, r, now, x);
    case Insert(t) => InsertConserves(s, t, now, x);
    case Resume(t) => assert Carriers(Apply(s, l, now), x) == Carriers(s, x) - {t};
    case _ => assert Carriers(Apply(s, l, now), x) == Carriers(s, x);
  }

  /** Outputs answered "accepted" = copies stored + copies handed over but not yet returned
      + copies returned by inputs; for the empty tuple, also those an input swallowed. */
  lemma {:induction false} AcceptedTuplesAreConserved(ls: seq<Label>, x: Tuple)
    requires Run(ls)
    ensures Count(ls, Wrote(x, true)) ==
            multiset(After(ls).store)[x] + |Carriers(After(ls), x)| + Count(ls, Found(true, x))
            + if x == [] then CountSwallowed(ls) else 0
  {
    if ls != [] {
      AcceptedTuplesAreConserved(Before(ls), x);
      TokenInvariant(Before(ls));
      StepConserves(After(Before(ls)), Last(ls), |ls| - 1, x);
    }
  }

  lemma StepKeepsPairsDifferent(s: State, l: Label, now: nat)
    requires Enabled(s, l) && |s.stamps| == |s.store| && NoEqualPair(s.store)
    ensures NoEqualPair(Apply(s, l, now).store)
  {
  }

  /** The database never holds two equal tuples. */
  lemma {:induction false} StoreHasNoEqualPair(ls: seq<Label>)
    requires Run(ls)
    ensures NoEqualPair(After(ls).store)
  {
    if ls != [] {
      StoreHasNoEqualPair(Before(ls));
      StepKeepsPairsDifferent(After(Before(ls)), Last(ls), |ls| - 1);
    }
  }

  // ---- Replies -----------------------------------------------------------------------

  // t answers the request r it searched for at k, and has sent nothing since.
  ghost predicate Answers(ls: seq<Label>, t: Tid, r: Request, k: nat)
    requires ls != []
  {
    && k < |ls| && ls[k] == Search(t, r) && Last(ls).actor == t
    && (k == |ls| - 1 || exists l :: WaitOp(ls, t, r, k, l) && Quiet(ls, t, l, |ls| - 1))
  }

  /** Every tuple a client gets answers its last request, matches it, and was output by someone. */
  lemma RepliesAnswerTheirRequest(ls: seq<Label>, isInput: bool, x: Tuple) returns (r: Request, k: nat)
    requires Run(ls) && ls != []
    requires OutcomeOf(After(Before(ls)), Last(ls)) == Found(isInput, x)
    ensures Answers(ls, Last(ls).actor, r, k) && r.isInput == isInput
    ensures MatchesTuple(r.pattern, x) && Offered(ls, x)
  {
    var pre := Before(ls);
    var s, l := After(pre), Last(ls);
    assert ls == pre + [l];
    TokenInvariant(pre);
    HistoryInvariant(pre);
    if l.Search? {
      r, k := l.request, |ls| - 1;
      var c := MatchIndex(s.store, r.pattern);
      assert CopyHistory(pre, s.store[c], s.stamps[c]);
      assert ls[s.stamps[c].informAt] == Inform(s.stamps[c].writer, x);
    } else {
      var th := s.threads[l.actor];
      assert TokenOk(s, l.actor) && ThreadHistory(pre, l.actor, th);
      r, k := th.request, th.phase.searchAt;
      assert WaitOp(ls, l.actor, r, k, th.phase.enqueueAt);
      var i :| 0 <= i < |pre| && pre[i].Inform? && pre[i].tuple == x;
      assert ls[i] == pre[i];
    }
  }

  // Thread 0 outputs the empty tuple and then asks for it.
  const SWALLOWED: seq<Label> := [Spawn(0), Inform(0, []), Insert(0), Search(0, Request([], true))]

  lemma CountGrows(ls: seq<Label>, l: Label, o: Outcome)
    requires Run(ls) && Enabled(After(ls), l)
    ensures Run(ls + [l]) && Count(ls + [l], o) == Count(ls, o) + Bit(OutcomeOf(After(ls), l) == o)
  {
    assert Before(ls + [l]) == ls;
  }

  // After the first three steps the empty tuple is stored.
  lemma EmptyTupleStored(o: Outcome)
    requires o != Silent
    ensures Run(SWALLOWED[..3]) && Count(SWALLOWED[..3], o) == Bit(o == Wrote([], true))
    ensures After(SWALLOWED[..3]).store == [[]]
    ensures After(SWALLOWED[..3]).threads == map[0 := Thread(Idle, Request([], false), true, [])]
  {
    var r0: seq<Label> := [];
    var r1 := r0 + [Spawn(0)];
    Extend(r0, Spawn(0));
    var r2 := r1 + [Inform(0, [])];
    Extend(r1, Inform(0, []));
    InformNobody(After(r1), 0, [], 1);
    Extend(r2, Insert(0));
    CountGrows(r0, Spawn(0), o);
    CountGrows(r1, Inform(0, []), o);
    CountGrows(r2, Insert(0), o);
    assert SWALLOWED[..3] == r2 + [Insert(0)];
  }

  /** The account needs the swallowed copies: an accepted empty tuple can vanish. */
  lemma EmptyTupleCanVanish(o: Outcome)
    requires o != Silent
    ensures Run(SWALLOWED) && After(SWALLOWED).store == [] && Carriers(After(SWALLOWED), []) == {}
    ensures Count(SWALLOWED, o) == Bit(o == Wrote([], true))
  {
    var r3, take := SWALLOWED[..3], Search(0, Request([], true));
    EmptyTupleStored(o);
    assert MatchIndex(After(r3).store, []) == 0 by { assert MatchesTuple([], []); }
    Extend(r3, take);
    CountGrows(r3, take, o);
    assert SWALLOWED == r3 + [take];
  }
}
