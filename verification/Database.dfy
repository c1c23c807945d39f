/** The shared database object (server_db.hpp, server_db.cpp). Every method that holds a mutex
    is one critical section of the interleaving model. */
module Database {
  import opened Types
  import opened Patterns
  import opened TupleSpace

  class AwaitingParams {
    var tuplePattern: seq<Pattern>
    var isInput: bool
    var passedTuple: Tuple
    // The mutex that a waiting thread blocks on.
    var locked: bool

    constructor ()
      ensures !locked
    {
      tuplePattern, isInput, passedTuple, locked := [], false, [], false;
    }

    function Wanted(): Request
      reads `tuplePattern, `isInput
    {
      Request(tuplePattern, isInput)
    }
  }

  function RequestsOf(q: seq<AwaitingParams>): (rs: seq<Request>)
    reads q`tuplePattern, q`isInput
    ensures |rs| == |q| && forall i :: 0 <= i < |q| ==> rs[i] == q[i].Wanted()
  {
    if q == [] then [] else [q[0].Wanted()] + RequestsOf(q[1..])
  }

  function PassedTo(q: seq<AwaitingParams>): (xs: seq<Tuple>)
    reads q`passedTuple
    ensures |xs| == |q| && forall i :: 0 <= i < |q| ==> xs[i] == q[i].passedTuple
  {
    if q == [] then [] else [q[0].passedTuple] + PassedTo(q[1..])
  }

  // Where each waiter stands.
  function Places<T>(q: seq<T>): (m: map<T, nat>)
    requires Distinct(q)
    ensures forall x :: x in m ==> x in q
    ensures forall j :: 0 <= j < |q| ==> q[j] in m && m[q[j]] == j
  {
    if q == [] then map[] else Places(q[..|q| - 1])[q[|q| - 1] := |q| - 1]
  }

  datatype Kind = IntKind | FloatKind | StrKind

  predicate HasKind(e: TupleElem, k: Kind) {
    match k
    case IntKind => e.IntElem?
    case FloatKind => e.FloatElem?
    case StrKind => e.StrElem?
  }

  // compareTupleElems<T>: false only if the left element is a T that the right one does not equal.
  predicate CompareTupleElems(k: Kind, left: TupleElem, right: TupleElem) {
    HasKind(left, k) ==> HasKind(right, k) && SameElem(left, right)
  }

  // The row of the tuples of length n.
  function OfLength(store: seq<Tuple>, n: nat): seq<Tuple> {
    if store == [] then []
    else (if |store[0]| == n then [store[0]] else []) + OfLength(store[1..], n)
  }

  lemma {:induction false} OfLengthAppend(store: seq<Tuple>, x: Tuple, n: nat)
    ensures OfLength(store + [x], n) == OfLength(store, n) + if |x| == n then [x] else []
  {
    if store == [] {
      assert store + [x] == [x];
    } else {
      assert (store + [x])[1..] == store[1..] + [x];
      OfLengthAppend(store[1..], x, n);
    }
  }

  lemma SearchCons(x: Tuple, store: seq<Tuple>, pattern: seq<Pattern>)
    ensures FirstMatch([x] + store, pattern) ==
            if MatchesTuple(pattern, x) then Some(x) else FirstMatch(store, pattern)
    ensures WithoutFirstMatch([x] + store, pattern) ==
            if MatchesTuple(pattern, x) then store else [x] + WithoutFirstMatch(store, pattern)
  {
    var xs := [x] + store;
    assert xs[0] == x && xs[1..] == store;
    var i := MatchIndex(store, pattern);
    if MatchesTuple(pattern, x) {
      assert MatchIndex(xs, pattern) == 0 && RemoveAt(xs, 0) == store;
    } else {
      assert MatchIndex(xs, pattern) == i + 1;
      assert i < |store| ==> RemoveAt(xs, i + 1) == [x] + RemoveAt(store, i);
    }
  }

  /** Searching the row of the pattern's length finds what searching the whole list would find,
      and erasing the match from its row is erasing it from the list. */
  lemma {:induction false} RowSearchIsListSearch(store: seq<Tuple>, pattern: seq<Pattern>, n: nat)
    ensures FirstMatch(OfLength(store, |pattern|), pattern) == FirstMatch(store, pattern)
    ensures OfLength(WithoutFirstMatch(store, pattern), n) ==
            if n == |pattern| then WithoutFirstMatch(OfLength(store, n), pattern) else OfLength(store, n)
  {
    if store != [] {
      var x, rest := store[0], store[1..];
      RowSearchIsListSearch(rest, pattern, n);
      assert store == [x] + rest;
      SearchCons(x, rest, pattern);
      SearchCons(x, OfLength(rest, n), pattern);
      SearchCons(x, OfLength(rest, |pattern|), pattern);
      OfLengthCons(x, rest, n);
      OfLengthCons(x, rest, |pattern|);
      OfLengthCons(x, WithoutFirstMatch(rest, pattern), n);
    }
  }

  lemma OfLengthCons(x: Tuple, store: seq<Tuple>, n: nat)
    ensures OfLength([x] + store, n) == if |x| == n then [x] + OfLength(store, n) else OfLength(store, n)
  {
    assert ([x] + store)[1..] == store;
  }

  lemma {:induction false} RowMembers(store: seq<Tuple>, x: Tuple)
    ensures Holding(OfLength(store, |x|), x) <==> Holding(store, x)
  {
    if store != [] {
      RowMembers(store[1..], x);
      var row, rest := OfLength(store, |x|), OfLength(store[1..], |x|);
      if Holding(rest, x) {
        var i :| 0 <= i < |rest| && SameTuple(rest[i], x);
        assert row[if |store[0]| == |x| then i + 1 else i] == rest[i];
      }
      if Holding(store[1..], x) {
        var i :| 0 <= i < |store[1..]| && SameTuple(store[1..][i], x);
        assert store[i + 1] == store[1..][i];
      }
      if Holding(store, x) {
        var i :| 0 <= i < |store| && SameTuple(store[i], x);
        assert i == 0 || store[1..][i - 1] == store[i];
        assert i == 0 ==> row[0] == store[0];
      }
      if Holding(row, x) {
        var i :| 0 <= i < |row| && SameTuple(row[i], x);
        if |store[0]| == |x| && i > 0 {
          assert rest[i - 1] == row[i];
        } else if |store[0]| != |x| {
          assert rest == row;
        }
      }
    }
  }

  // The queue after its first n entries have been dealt with, the marked ones erased.
  function Erased<T>(q: seq<T>, marks: seq<bool>, n: nat): (r: seq<T>)
    requires n <= |q| == |marks|
    ensures |r| == |q| - n + CountUnmarked(marks, n)
  {
    if n == 0 then q
    else
      var r := Erased(q, marks, n - 1);
      if marks[n - 1] then RemoveAt(r, CountUnmarked(marks, n - 1)) else r
  }

  lemma RemoveMiddle<T>(u: seq<T>, x: T, v: seq<T>)
    ensures RemoveAt(u + ([x] + v), |u|) == u + v
  {
  }

  lemma {:induction false} ErasedIs<T>(q: seq<T>, marks: seq<bool>, n: nat)
    requires n <= |q| == |marks|
    ensures Erased(q, marks, n) == Unmarked(q, marks, n) + q[n..]
  {
    if n > 0 {
      var u, x, v := Unmarked(q, marks, n - 1), q[n - 1], q[n..];
      ErasedIs(q, marks, n - 1);
      UnmarkedLength(q, marks, n - 1);
      assert q[n - 1..] == [x] + v;
      RemoveMiddle(u, x, v);
      assert u + ([x] + v) == (u + [x]) + v;
    }
  }

  lemma ErasedAt<T>(q: seq<T>, marks: seq<bool>, n: nat)
    requires n < |q| == |marks|
    ensures Erased(q, marks, n)[CountUnmarked(marks, n)] == q[n]
  {
    ErasedIs(q, marks, n);
    UnmarkedLength(q, marks, n);
  }

  lemma ErasedAll<T>(q: seq<T>, marks: seq<bool>, n: nat)
    requires n <= |q| == |marks|
    requires forall j :: n <= j < |q| ==> !marks[j]
    ensures Erased(q, marks, n) == Remaining(q, marks)
  {
    ErasedIs(q, marks, n);
    UnmarkedSplit(q, marks, n, |q|);
  }

  lemma MarkOf(rs: seq<Request>, tuple: Tuple, j: nat)
    requires j < |rs|
    ensures var marked, taker := Served(rs, tuple)[j], FirstTaker(rs, tuple);
      && marked == (MatchesTuple(rs[j].pattern, tuple) && j <= taker)
      && (marked ==> rs[j].isInput == (j == taker))
      && (j == taker ==> marked)
  {
    assert Served(rs, tuple)[j] == ServedAt(rs, tuple, j);
    assert ServedAt(rs, tuple, j) ==> (rs[j].isInput <==> Takes(rs[j], tuple));
  }

  // One sweep of the queue with a tuple: the queue it started from, whom it serves and who
  // takes the tuple.
  datatype Sweep = Sweep(queue: seq<AwaitingParams>, requests: seq<Request>, marks: seq<bool>,
                               passed: seq<Tuple>, places: map<AwaitingParams, nat>, taker: nat, tuple: Tuple)
  {
    predicate Valid() {
      && |queue| == |requests| == |marks| == |passed| && taker <= |queue|
      && forall j :: 0 <= j < |queue| ==> EntryOk(j)
    }

    predicate EntryOk(j: int)
      requires 0 <= j < |queue| == |requests| == |marks|
    {
      && queue[j] in places && places[queue[j]] == j
      && marks[j] == (MatchesTuple(requests[j].pattern, tuple) && j <= taker)
      && (marks[j] ==> requests[j].isInput == (j == taker))
      && (j == taker ==> marks[j])
    }

    // Waiter j when the first n waiters have been offered the tuple.
    predicate WaiterOk(n: nat, j: int)
      requires 0 <= j < |queue| == |requests| == |marks| == |passed|
      reads queue`tuplePattern, queue`isInput, queue`locked, queue`passedTuple
    {
      && queue[j].Wanted() == requests[j]
      && queue[j].locked == !(j < n && marks[j])
      && queue[j].passedTuple == if j < n && marks[j] then tuple else passed[j]
    }

    predicate Swept(n: nat)
      requires |queue| == |requests| == |marks| == |passed|
      reads queue`tuplePattern, queue`isInput, queue`locked, queue`passedTuple
    {
      forall j :: 0 <= j < |queue| ==> WaiterOk(n, j)
    }

    // Once the taker has the tuple, whoever is behind it stays as it is.
    lemma Ends()
      requires Valid() && taker < |queue| && Swept(taker + 1)
      ensures Swept(|queue|)
      ensures Erased(queue, marks, taker + 1) == Remaining(queue, marks)
    {
      forall j | 0 <= j < |queue| ensures WaiterOk(|queue|, j) {
        assert WaiterOk(taker + 1, j) && EntryOk(j);
      }
      forall j | taker < j < |queue| ensures !marks[j] {
        assert EntryOk(j);
      }
      ErasedAll(queue, marks, taker + 1);
    }

    lemma RemainingRequests()
      requires Valid() && Swept(|queue|)
      ensures RequestsOf(Remaining(queue, marks)) == Remaining(requests, marks)
    {
      UnmarkedLength(queue, marks, |queue|);
      UnmarkedLength(requests, marks, |queue|);
      forall k | 0 <= k < |Remaining(queue, marks)|
        ensures RequestsOf(Remaining(queue, marks))[k] == Remaining(requests, marks)[k]
      {
        var i := RemainingParallel(queue, requests, marks, k);
        assert WaiterOk(|queue|, i);
      }
    }

    lemma Outcomes()
      requires Valid() && Swept(|queue|) && marks == Served(requests, tuple)
      ensures forall j :: 0 <= j < |queue| ==>
                && queue[j].Wanted() == requests[j]
                && queue[j].locked == !ServedAt(requests, tuple, j)
                && queue[j].passedTuple == if ServedAt(requests, tuple, j) then tuple else passed[j]
    {
      forall j | 0 <= j < |queue|
        ensures queue[j].Wanted() == requests[j] && queue[j].locked == !ServedAt(requests, tuple, j)
        ensures queue[j].passedTuple == if ServedAt(requests, tuple, j) then tuple else passed[j]
      {
        assert WaiterOk(|queue|, j) && marks[j] == ServedAt(requests, tuple, j);
      }
    }

    lemma StillQueuedAreLocked()
      requires Valid() && Distinct(queue) && Swept(|queue|)
      ensures Distinct(Remaining(queue, marks))
      ensures forall k :: 0 <= k < |Remaining(queue, marks)| ==>
                Remaining(queue, marks)[k].locked && Remaining(queue, marks)[k] in queue
    {
      RemainingEntries(queue, marks);
      forall k | 0 <= k < |Remaining(queue, marks)|
        ensures Remaining(queue, marks)[k].locked && Remaining(queue, marks)[k] in queue
      {
        var j :| 0 <= j < |queue| && queue[j] == Remaining(queue, marks)[k] && !marks[j];
        assert WaiterOk(|queue|, j);
      }
    }
  }

  class ServerDB {
    var records: map<nat, seq<Tuple>>
    var waitingThreadsQueue: seq<AwaitingParams>
    // The stored tuples in the order of their insertion.
    ghost var contents: seq<Tuple>

    function Row(n: nat): seq<Tuple>
      reads this`records
    {
      if n in records then records[n] else []
    }

    ghost predicate RowsOk()
      reads this`records, this`contents
    {
      && (forall n :: Row(n) == OfLength(contents, n))
      && NoEqualPair(contents)
    }

    ghost predicate QueueOk()
      reads this`waitingThreadsQueue, waitingThreadsQueue`locked
    {
      && Distinct(waitingThreadsQueue)
      && (forall w :: w in waitingThreadsQueue ==> w.locked)
    }

    function Waiting(): (rs: seq<Request>)
      reads this`waitingThreadsQueue, waitingThreadsQueue`tuplePattern, waitingThreadsQueue`isInput
      ensures |rs| == |waitingThreadsQueue|
      ensures forall i :: 0 <= i < |rs| ==> rs[i] == waitingThreadsQueue[i].Wanted()
    {
      RequestsOf(waitingThreadsQueue)
    }

    ghost function Waiters(): set<AwaitingParams>
      reads this`waitingThreadsQueue
    {
      set w | w in waitingThreadsQueue
    }

    ghost function Abstract(): Space
      reads this`contents, this`waitingThreadsQueue, waitingThreadsQueue`tuplePattern, waitingThreadsQueue`isInput
    {
      Space(contents, Waiting())
    }

    constructor ()
      ensures RowsOk() && QueueOk() && contents == [] && waitingThreadsQueue == []
    {
      records, waitingThreadsQueue, contents := map[], [], [];
    }

    static method IsPatternEqualToTuple(pattern: seq<Pattern>, tuple: Tuple) returns (isTupleCorrect: bool)
      ensures isTupleCorrect == MatchesTuple(pattern, tuple)
      ensures isTupleCorrect <==>
              && |pattern| == |tuple|
              && forall i :: 0 <= i < |pattern| ==>
                   SameType(tuple[i], pattern[i].value) && Compares(pattern[i].op, tuple[i], pattern[i].value)
    {
      MatchesElementwise(pattern, tuple);
      if |pattern| != |tuple| {
        return false;
      }
      isTupleCorrect := true;
      for i := 0 to |pattern|
        invariant isTupleCorrect <==> forall j :: 0 <= j < i ==> Matches(pattern[j], tuple[j])
      {
        if !Matches(pattern[i], tuple[i]) {
          isTupleCorrect := false;
        }
      }
    }

    // Indexes `right` up to the length of `left`.
    static method IsTupleAlreadyInDatabase(left: Tuple, right: Tuple) returns (same: bool)
      requires |left| <= |right|
      ensures same <==> SameTuple(left, right[..|left|])
    {
      for i := 0 to |left|
        invariant forall j :: 0 <= j < i ==> SameElem(left[j], right[j])
      {
        if !CompareTupleElems(IntKind, left[i], right[i]) {
          return false;
        }
        if !CompareTupleElems(FloatKind, left[i], right[i]) {
          return false;
        }
        if !CompareTupleElems(StrKind, left[i], right[i]) {
          return false;
        }
      }
      return true;
    }

    // records[n] creates the row it does not find.
    method TouchRow(n: nat)
      requires RowsOk()
      modifies this`records
      ensures RowsOk() && n in records && Row(n) == old(Row(n))
    {
      if n !in records {
        label before:
        records := records[n := []];
        assert forall m :: Row(m) == old@before(Row(m));
      }
    }

    method FindTuple(pattern: seq<Pattern>) returns (tuple: Tuple)
      requires RowsOk()
      modifies this`records
      ensures RowsOk()
      ensures FirstMatch(contents, pattern) == None ==> tuple == []
      ensures FirstMatch(contents, pattern).Some? ==> tuple == FirstMatch(contents, pattern).value
      ensures tuple != [] ==> tuple in contents && |tuple| == |pattern| && forall i :: 0 <= i < |pattern| ==>
                SameType(tuple[i], pattern[i].value) && Compares(pattern[i].op, tuple[i], pattern[i].value)
      ensures tuple == [] && [] !in contents ==>
        forall x :: x in contents ==> !(|x| == |pattern| && forall i :: 0 <= i < |pattern| ==>
            SameType(x[i], pattern[i].value) && Compares(pattern[i].op, x[i], pattern[i].value))
    {
      FirstMatchElementwise(contents, pattern);
      if FirstMatch(contents, pattern) == None {
        NothingFits(contents, pattern);
      }
      TouchRow(|pattern|);
      RowSearchIsListSearch(contents, pattern, |pattern|);
      var currRow := records[|pattern|];
      assert currRow == Row(|pattern|);
      ghost var found := FirstMatch(contents, pattern);
      assert found == FirstMatch(currRow, pattern);
      var i := 0;
      while i < |currRow|
        invariant 0 <= i <= MatchIndex(currRow, pattern)
        modifies {}
      {
        var isMatch := IsPatternEqualToTuple(pattern, currRow[i]);
        if isMatch {
          assert MatchIndex(currRow, pattern) == i && found == Some(currRow[i]);
          return currRow[i];
        }
        i := i + 1;
      }
      assert found == None;
      return [];
    }

    method FindTupleAndRemoveIt(pattern: seq<Pattern>) returns (tuple: Tuple)
      requires RowsOk()
      modifies this`records, this`contents
      ensures RowsOk()
      ensures FirstMatch(old(contents), pattern) == None ==> tuple == []
      ensures FirstMatch(old(contents), pattern).Some? ==> tuple == FirstMatch(old(contents), pattern).value
      ensures contents == WithoutFirstMatch(old(contents), pattern)
    {
      var n := |pattern|;
      TouchRow(n);
      RowSearchIsListSearch(contents, pattern, n);
      ghost var rows, row, k := records, records[n], MatchIndex(records[n], pattern);
      assert row == Row(n) && FirstMatch(contents, pattern) == FirstMatch(row, pattern);
      var i := 0;
      while i < |records[n]|
        invariant 0 <= i <= k && records == rows && contents == old(contents)
      {
        var isMatch := IsPatternEqualToTuple(pattern, records[n][i]);
        if isMatch {
          assert i == k && RowsOk();
          tuple := records[n][i];
          EraseFromRow(pattern, i);
          return;
        }
        i := i + 1;
      }
      assert k == |row| && FirstMatch(contents, pattern) == None;
      return [];
    }

    method EraseFromRow(pattern: seq<Pattern>, i: nat)
      requires RowsOk() && |pattern| in records
      requires i == MatchIndex(records[|pattern|], pattern) < |records[|pattern|]|
      modifies this`records, this`contents
      ensures RowsOk() && contents == WithoutFirstMatch(old(contents), pattern)
    {
      assert records[|pattern|] == Row(|pattern|);
      records := records[|pattern| := RemoveAt(records[|pattern|], i)];
      contents := WithoutFirstMatch(contents, pattern);
      forall m: nat ensures Row(m) == OfLength(contents, m) {
        assert m != |pattern| ==> Row(m) == old(Row(m));
        RowSearchIsListSearch(old(contents), pattern, m);
      }
    }

    // The second critical section of addTupleToDB.
    method InsertTuple(newTuple: Tuple) returns (added: bool)
      requires RowsOk()
      modifies this`records, this`contents
      ensures RowsOk()
      ensures added == !Holding(old(contents), newTuple)
      ensures contents == if added then old(contents) + [newTuple] else old(contents)
    {
      var n := |newTuple|;
      TouchRow(n);
      RowMembers(contents, newTuple);
      var currRow := records[n];
      assert currRow == Row(n);
      RowLengths(contents, n);
      for i := 0 to |currRow|
        invariant forall j :: 0 <= j < i ==> !SameTuple(currRow[j], newTuple)
        modifies {}
      {
        assert newTuple[..|currRow[i]|] == newTuple;
        var isSame := IsTupleAlreadyInDatabase(currRow[i], newTuple);
        if isSame {
          return false;
        }
      }
      PushToRow(newTuple);
      return true;
    }

    method PushToRow(newTuple: Tuple)
      requires RowsOk() && |newTuple| in records && !Holding(contents, newTuple)
      modifies this`records, this`contents
      ensures RowsOk() && contents == old(contents) + [newTuple]
    {
      var n := |newTuple|;
      records := records[n := records[n] + [newTuple]];
      contents := contents + [newTuple];
      forall m: nat ensures Row(m) == OfLength(contents, m) {
        assert old(Row(m)) == OfLength(old(contents), m);
        OfLengthAppend(old(contents), newTuple, m);
      }
    }

    // addTupleToDB with nothing in between its two critical sections.
    method AddTupleToDB(newTuple: Tuple) returns (accepted: bool)
      requires RowsOk() && QueueOk()
      modifies this, waitingThreadsQueue
      ensures RowsOk() && QueueOk()
      ensures accepted <==> FirstTaker(old(Waiting()), newTuple) < |old(Waiting())| || !Holding(old(contents), newTuple)
      ensures Abstract() == Perform(old(Abstract()), Write(newTuple)).0
      ensures Waiters() <= old(Waiters())
    {
      ghost var rs, stored := Waiting(), contents;
      accepted := InformWaitingThreads(newTuple);
      assert RowsOk() && Waiting() == Remaining(rs, Served(rs, newTuple));
      if !accepted {
        accepted := InsertBehindQueue(newTuple);
      }
      assert contents ==
             if FirstTaker(rs, newTuple) < |rs| || Holding(stored, newTuple) then stored else stored + [newTuple];
    }

    // The queue is none of its business.
    method InsertBehindQueue(newTuple: Tuple) returns (added: bool)
      requires RowsOk() && QueueOk()
      modifies this`records, this`contents
      ensures RowsOk() && QueueOk() && Waiting() == old(Waiting())
      ensures added == !Holding(old(contents), newTuple)
      ensures contents == if added then old(contents) + [newTuple] else old(contents)
    {
      added := InsertTuple(newTuple);
    }

    // waitForTuple up to the point where it blocks on the mutex.
    method Enqueue(p: AwaitingParams)
      requires QueueOk() && p.locked && p !in waitingThreadsQueue
      modifies this`waitingThreadsQueue
      ensures QueueOk() && waitingThreadsQueue == old(waitingThreadsQueue) + [p]
      ensures Waiting() == old(Waiting()) + [p.Wanted()]
    {
      waitingThreadsQueue := waitingThreadsQueue + [p];
    }

    // waitForTuple once the mutex has been unlocked.
    static method Resume(p: AwaitingParams) returns (tuple: Tuple)
      requires !p.locked
      modifies p`locked
      ensures p.locked && tuple == p.passedTuple
    {
      p.locked := true;
      tuple := p.passedTuple;
    }

    method InformWaitingThreads(tuple: Tuple) returns (taken: bool)
      requires QueueOk()
      modifies this`waitingThreadsQueue, waitingThreadsQueue
      ensures QueueOk() && Waiters() <= old(Waiters())
      ensures taken <==> FirstTaker(old(Waiting()), tuple) < |old(Waiting())|
      ensures waitingThreadsQueue == Remaining(old(waitingThreadsQueue), Served(old(Waiting()), tuple))
      ensures Waiting() == Remaining(old(Waiting()), Served(old(Waiting()), tuple))
      ensures forall i :: 0 <= i < |old(waitingThreadsQueue)| ==>
                var w := old(waitingThreadsQueue)[i];
                && w.Wanted() == old(Waiting())[i]
                && w.locked == !ServedAt(old(Waiting()), tuple, i)
                && w.passedTuple == if ServedAt(old(Waiting()), tuple, i) then tuple else old(w.passedTuple)
    {
      ghost var s := StartSweep(tuple);
      taken := SweepQueue(tuple, s);
      s.StillQueuedAreLocked();
      s.RemainingRequests();
      s.Outcomes();
    }

    ghost method StartSweep(tuple: Tuple) returns (s: Sweep)
      requires QueueOk()
      ensures s.Valid() && s.Swept(0) && Distinct(s.queue)
      ensures s.queue == waitingThreadsQueue && s.requests == Waiting() && s.tuple == tuple
      ensures s.marks == Served(s.requests, tuple) && s.taker == FirstTaker(s.requests, tuple)
      ensures forall j :: 0 <= j < |s.queue| ==> s.passed[j] == s.queue[j].passedTuple
    {
      var q, rs := waitingThreadsQueue, Waiting();
      s := Sweep(q, rs, Served(rs, tuple), PassedTo(q), Places(q), FirstTaker(rs, tuple), tuple);
      forall j | 0 <= j < |q| ensures s.EntryOk(j) && s.WaiterOk(0, j) {
        MarkOf(rs, tuple, j);
      }
    }

    // The loop of informWaitingThreads: offers the tuple to one waiter after the other.
    method SweepQueue(tuple: Tuple, ghost s: Sweep) returns (taken: bool)
      requires s.Valid() && s.queue == waitingThreadsQueue && s.tuple == tuple && s.Swept(0)
      modifies this`waitingThreadsQueue, waitingThreadsQueue
      ensures taken <==> s.taker < |s.queue|
      ensures waitingThreadsQueue == Remaining(s.queue, s.marks)
      ensures s.Swept(|s.queue|)
    {
      ghost var n := 0;
      var i := 0;
      while i != |waitingThreadsQueue|
        invariant 0 <= n <= |s.queue| && n <= s.taker && i == CountUnmarked(s.marks, n)
        invariant waitingThreadsQueue == Erased(s.queue, s.marks, n)
        invariant s.Swept(n)
        decreases |s.queue| - n
      {
        ErasedAt(s.queue, s.marks, n);
        var w := waitingThreadsQueue[i];
        var isMatch := Offer(w, tuple, s, n, n + 1);
        if isMatch {
          if w.isInput {
            s.Ends();
            Erase(i, s, |s.queue|);
            return true;
          }
          Erase(i, s, n + 1);
          i := i - 1;
        }
        i := i + 1;
        n := n + 1;
      }
      ErasedAll(s.queue, s.marks, n);
      return false;
    }

    method Erase(i: nat, ghost s: Sweep, ghost n: nat)
      requires s.Valid() && s.Swept(n) && i < |waitingThreadsQueue|
      modifies this`waitingThreadsQueue
      ensures waitingThreadsQueue == RemoveAt(old(waitingThreadsQueue), i)
      ensures s.Swept(n)
    {
      waitingThreadsQueue := RemoveAt(waitingThreadsQueue, i);
      forall j | 0 <= j < |s.queue| ensures s.WaiterOk(n, j) {
        assert old(s.WaiterOk(n, j));
      }
    }

    static method Offer(w: AwaitingParams, tuple: Tuple, ghost s: Sweep, ghost n: nat, ghost next: nat)
      returns (isMatch: bool)
      requires s.Valid() && s.Swept(n) && n < |s.queue| && n <= s.taker && next == n + 1
      requires w == s.queue[n] && tuple == s.tuple
      modifies w`passedTuple, w`locked
      ensures isMatch == s.marks[n] && s.Swept(next)
      ensures isMatch ==> w.isInput == (n == s.taker)
      ensures !isMatch ==> n < s.taker
    {
      assert s.EntryOk(n) && s.WaiterOk(n, n);
      isMatch := ServerDB.IsPatternEqualToTuple(w.tuplePattern, tuple);
      if isMatch {
        w.passedTuple := tuple;
        w.locked := false;
      }
      forall j | 0 <= j < |s.queue| ensures s.WaiterOk(next, j) {
        assert old(s.WaiterOk(n, j)) && s.EntryOk(j);
      }
    }
  }

  lemma {:induction false} RowLengths(store: seq<Tuple>, n: nat)
    ensures forall i :: 0 <= i < |OfLength(store, n)| ==> |OfLength(store, n)[i]| == n
  {
    if store != [] {
      RowLengths(store[1..], n);
    }
  }
}
