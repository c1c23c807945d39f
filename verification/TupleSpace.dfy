/** What one critical section of ServerDB computes (server_db.cpp), as functions of values.
    Both the ServerDB class and the interleaving model are stated with them. */
module TupleSpace {
  import opened Types
  import opened Patterns

  predicate MatchesTuple(pattern: seq<Pattern>, tuple: Tuple) {
    |pattern| == |tuple| && forall i :: 0 <= i < |pattern| ==> Matches(pattern[i], tuple[i])
  }

  /** A pattern matches the tuples of its length whose elements all have its types and stand to its
      values as its operators say. */
  lemma MatchesElementwise(pattern: seq<Pattern>, tuple: Tuple)
    ensures MatchesTuple(pattern, tuple) <==>
            && |pattern| == |tuple|
            && forall i :: 0 <= i < |pattern| ==>
                 SameType(tuple[i], pattern[i].value) && Compares(pattern[i].op, tuple[i], pattern[i].value)
  {
    forall i | 0 <= i < |pattern| && |pattern| == |tuple|
      ensures Matches(pattern[i], tuple[i]) <==>
              SameType(tuple[i], pattern[i].value) && Compares(pattern[i].op, tuple[i], pattern[i].value)
    {
      OperatorsMean(pattern[i].op, pattern[i].value, tuple[i]);
    }
  }

  predicate SameTuple(a: Tuple, b: Tuple) {
    |a| == |b| && forall i :: 0 <= i < |a| ==> SameElem(a[i], b[i])
  }

  /** Two tuples are the same if they have the same length and the same numbers and strings. */
  lemma SameElementwise(a: Tuple, b: Tuple)
    ensures SameTuple(a, b) <==> |a| == |b| && forall i :: 0 <= i < |a| ==> Alike(a[i], b[i])
  {
    forall i | 0 <= i < |a| && |a| == |b| ensures SameElem(a[i], b[i]) <==> Alike(a[i], b[i]) {
      OperatorsMean(Equal, b[i], a[i]);
    }
  }

  // The database: a list of tuples in the order of their insertion.
  predicate Holding(store: seq<Tuple>, x: Tuple) {
    exists i :: 0 <= i < |store| && SameTuple(store[i], x)
  }

  /** A tuple is held if one of its length is stored that is alike in all elements. */
  lemma HoldingElementwise(store: seq<Tuple>, x: Tuple)
    ensures !Holding(store, x) <==> forall y :: y in store ==>
              !(|y| == |x| && forall i :: 0 <= i < |y| ==> Alike(y[i], x[i]))
  {
    forall y | y in store ensures SameTuple(y, x) <==> |y| == |x| && forall i :: 0 <= i < |y| ==> Alike(y[i], x[i]) {
      SameElementwise(y, x);
    }
  }

  ghost predicate NoEqualPair(store: seq<Tuple>) {
    forall i, j :: 0 <= i < j < |store| ==> !SameTuple(store[i], store[j])
  }

  // The position of the first tuple that matches, or the length of the list.
  function MatchIndex(store: seq<Tuple>, pattern: seq<Pattern>): (i: nat)
    ensures i <= |store|
    ensures i < |store| ==> MatchesTuple(pattern, store[i])
    ensures forall j :: 0 <= j < i ==> !MatchesTuple(pattern, store[j])
  {
    if store == [] || MatchesTuple(pattern, store[0]) then 0 else 1 + MatchIndex(store[1..], pattern)
  }

  function FirstMatch(store: seq<Tuple>, pattern: seq<Pattern>): Option<Tuple> {
    var i := MatchIndex(store, pattern);
    if i < |store| then Some(store[i]) else None
  }

  /** No tuple stored before the place of the first match fits the pattern element by element, ... */
  lemma {:induction false} NoneBeforeFits(store: seq<Tuple>, pattern: seq<Pattern>, j: nat)
    requires j < MatchIndex(store, pattern)
    ensures !(|store[j]| == |pattern| && forall i :: 0 <= i < |pattern| ==>
                SameType(store[j][i], pattern[i].value) && Compares(pattern[i].op, store[j][i], pattern[i].value))
  {
    MatchesElementwise(pattern, store[j]);
  }

  /** ... and if there is one, it fits, and it alone is taken out; if there is none, nothing is. */
  lemma {:induction false} FirstMatchElementwise(store: seq<Tuple>, pattern: seq<Pattern>)
    ensures var k := MatchIndex(store, pattern);
      match FirstMatch(store, pattern)
      case None => k == |store| && WithoutFirstMatch(store, pattern) == store
      case Some(x) =>
        && k < |store| && x == store[k] && WithoutFirstMatch(store, pattern) == store[..k] + store[k + 1..]
        && |x| == |pattern| && forall i :: 0 <= i < |pattern| ==>
             SameType(x[i], pattern[i].value) && Compares(pattern[i].op, x[i], pattern[i].value)
  {
    var k := MatchIndex(store, pattern);
    if k < |store| {
      MatchesElementwise(pattern, store[k]);
    }
  }

  lemma NothingFits(store: seq<Tuple>, pattern: seq<Pattern>)
    requires FirstMatch(store, pattern) == None
    ensures forall x :: x in store ==> !(|x| == |pattern| && forall i :: 0 <= i < |pattern| ==>
              SameType(x[i], pattern[i].value) && Compares(pattern[i].op, x[i], pattern[i].value))
  {
    forall x | x in store
      ensures !(|x| == |pattern| && forall i :: 0 <= i < |pattern| ==>
                  SameType(x[i], pattern[i].value) && Compares(pattern[i].op, x[i], pattern[i].value))
    {
      MatchesElementwise(pattern, x);
    }
  }

  function WithoutFirstMatch(store: seq<Tuple>, pattern: seq<Pattern>): seq<Tuple> {
    var i := MatchIndex(store, pattern);
    if i < |store| then RemoveAt(store, i) else store
  }

  // What a queued thread waits for (AwaitingParams::tuple_pattern, AwaitingParams::isInput).
  datatype Request = Request(pattern: seq<Pattern>, isInput: bool)

  predicate Takes(r: Request, x: Tuple) {
    r.isInput && MatchesTuple(r.pattern, x)
  }

  // The position of the first waiting input that matches x, or the length of the queue.
  function FirstTaker(rs: seq<Request>, x: Tuple): (c: nat)
    ensures c <= |rs|
    ensures c < |rs| ==> Takes(rs[c], x)
    ensures forall j :: 0 <= j < c ==> !Takes(rs[j], x)
  {
    if rs == [] || Takes(rs[0], x) then 0 else 1 + FirstTaker(rs[1..], x)
  }

  // An output of x serves the matching waiters up to and including the first matching input.
  predicate ServedAt(rs: seq<Request>, x: Tuple, i: int)
    requires 0 <= i < |rs|
  {
    MatchesTuple(rs[i].pattern, x) && i <= FirstTaker(rs, x)
  }

  function Served(rs: seq<Request>, x: Tuple): (m: seq<bool>)
    ensures |m| == |rs|
    ensures forall i :: 0 <= i < |rs| ==> m[i] == ServedAt(rs, x, i)
  {
    seq(|rs|, i requires 0 <= i < |rs| => ServedAt(rs, x, i))
  }

  // The entries among the first n of q that are not marked, in order.
  function Unmarked<T>(q: seq<T>, marks: seq<bool>, n: nat): seq<T>
    requires n <= |q| == |marks|
  {
    if n == 0 then [] else Unmarked(q, marks, n - 1) + if marks[n - 1] then [] else [q[n - 1]]
  }

  // How many of the first n marks are not set: the new position of an entry behind them.
  function CountUnmarked(marks: seq<bool>, n: nat): nat
    requires n <= |marks|
  {
    if n == 0 then 0 else CountUnmarked(marks, n - 1) + if marks[n - 1] then 0 else 1
  }

  lemma {:induction false} UnmarkedLength<T>(q: seq<T>, marks: seq<bool>, n: nat)
    requires n <= |q| == |marks|
    ensures |Unmarked(q, marks, n)| == CountUnmarked(marks, n)
  {
    if n > 0 {
      UnmarkedLength(q, marks, n - 1);
    }
  }

  lemma {:induction false} UnmarkedAt<T>(q: seq<T>, marks: seq<bool>, n: nat, i: nat)
    requires i < n <= |q| == |marks| && !marks[i]
    ensures CountUnmarked(marks, i) < |Unmarked(q, marks, n)|
    ensures Unmarked(q, marks, n)[CountUnmarked(marks, i)] == q[i]
  {
    UnmarkedLength(q, marks, n - 1);
    if i < n - 1 {
      UnmarkedAt(q, marks, n - 1, i);
    }
  }

  lemma {:induction false} UnmarkedFrom<T>(q: seq<T>, marks: seq<bool>, n: nat, k: nat) returns (i: nat)
    requires n <= |q| == |marks| && k < |Unmarked(q, marks, n)|
    ensures i < n && !marks[i] && CountUnmarked(marks, i) == k && q[i] == Unmarked(q, marks, n)[k]
  {
    UnmarkedLength(q, marks, n - 1);
    if k < CountUnmarked(marks, n - 1) {
      i := UnmarkedFrom(q, marks, n - 1, k);
    } else {
      i := n - 1;
    }
  }

  lemma {:induction false} CountUnmarkedGrows(marks: seq<bool>, i: nat, j: nat)
    requires i <= j <= |marks|
    ensures CountUnmarked(marks, i) <= CountUnmarked(marks, j) <= CountUnmarked(marks, i) + (j - i)
    ensures i < j && marks[i] ==> CountUnmarked(marks, j) < CountUnmarked(marks, i) + (j - i)
    ensures i < j && !marks[i] ==> CountUnmarked(marks, i) < CountUnmarked(marks, j)
    decreases j
  {
    if i < j {
      CountUnmarkedGrows(marks, i, j - 1);
    }
  }

  lemma {:induction false} UnmarkedSplit<T>(q: seq<T>, marks: seq<bool>, n: nat, m: nat)
    requires n <= m <= |q| == |marks|
    requires forall i :: n <= i < m ==> !marks[i]
    ensures Unmarked(q, marks, m) == Unmarked(q, marks, n) + q[n..m]
    decreases m
  {
    if n < m {
      UnmarkedSplit(q, marks, n, m - 1);
      assert q[n..m] == q[n..m - 1] + [q[m - 1]];
    }
  }

  ghost predicate Distinct<T>(q: seq<T>) {
    forall i, j :: 0 <= i < j < |q| ==> q[i] != q[j]
  }

  // The queue once the marked entries are erased.
  function Remaining<T>(q: seq<T>, marks: seq<bool>): seq<T>
    requires |q| == |marks|
  {
    Unmarked(q, marks, |q|)
  }

  /** The queue keeps its unmarked entries and only those, still pairwise distinct. */
  lemma RemainingEntries<T>(q: seq<T>, marks: seq<bool>)
    requires |q| == |marks| && Distinct(q)
    ensures Distinct(Remaining(q, marks))
    ensures forall k :: 0 <= k < |Remaining(q, marks)| ==>
              exists i :: 0 <= i < |q| && q[i] == Remaining(q, marks)[k] && !marks[i]
    ensures forall i :: 0 <= i < |q| && !marks[i] ==> q[i] in Remaining(q, marks)
  {
    var n, kept := |q|, Remaining(q, marks);
    forall k | 0 <= k < |kept|
      ensures exists i :: 0 <= i < |q| && q[i] == kept[k] && !marks[i]
    {
      var i := UnmarkedFrom(q, marks, n, k);
    }
    forall i | 0 <= i < |q| && !marks[i]
      ensures q[i] in kept
    {
      UnmarkedAt(q, marks, n, i);
    }
    forall a, b | 0 <= a < b < |kept|
      ensures kept[a] != kept[b]
    {
      var i := UnmarkedFrom(q, marks, n, a);
      var j := UnmarkedFrom(q, marks, n, b);
    }
  }

  /** Whoever stays moves up by the number of erased entries in front, and nobody passes anybody. */
  lemma RemainingOrder<T>(q: seq<T>, marks: seq<bool>, i: nat, j: nat)
    requires i < j < |q| == |marks| && !marks[i] && !marks[j]
    ensures CountUnmarked(marks, i) < CountUnmarked(marks, j) < |Remaining(q, marks)|
    ensures Remaining(q, marks)[CountUnmarked(marks, i)] == q[i]
    ensures Remaining(q, marks)[CountUnmarked(marks, j)] == q[j]
  {
    UnmarkedAt(q, marks, |q|, i);
    UnmarkedAt(q, marks, |q|, j);
    CountUnmarkedGrows(marks, i, j);
  }

  // Erasing the same places from two parallel lists keeps them parallel.
  lemma RemainingParallel<T, U>(q: seq<T>, rs: seq<U>, marks: seq<bool>, k: nat) returns (i: nat)
    requires |q| == |rs| == |marks| && k < |Remaining(q, marks)|
    ensures |Remaining(rs, marks)| == |Remaining(q, marks)|
    ensures i < |q| && Remaining(q, marks)[k] == q[i] && Remaining(rs, marks)[k] == rs[i]
  {
    UnmarkedLength(q, marks, |q|);
    UnmarkedLength(rs, marks, |q|);
    i := UnmarkedFrom(q, marks, |q|, k);
    UnmarkedAt(rs, marks, |q|, i);
  }

  // ---- One operation at a time -------------------------------------------------------

  // What the database holds and what the queued threads wait for.
  datatype Space = Space(store: seq<Tuple>, waiting: seq<Request>)

  // A command and the tuple it is answered with; None if its thread has to wait.
  // A write is answered with no elements.
  function Perform(s: Space, cmd: Command): (Space, Option<Tuple>) {
    match cmd
    case Write(x) =>
      var rs := s.waiting;
      var store := if FirstTaker(rs, x) < |rs| || Holding(s.store, x) then s.store else s.store + [x];
      (Space(store, Remaining(rs, Served(rs, x))), Some([]))
    case Read(p) =>
      (match FirstMatch(s.store, p)
       case Some(x) => if x != [] then (s, Some(x)) else (Queue(s, p, false), None)
       case None => (Queue(s, p, false), None))
    case Input(p) =>
      var s1 := s.(store := WithoutFirstMatch(s.store, p));
      match FirstMatch(s.store, p)
      case Some(x) => if x != [] then (s1, Some(x)) else (Queue(s1, p, true), None)
      case None => (Queue(s1, p, true), None)
  }

  function Queue(s: Space, p: seq<Pattern>, isInput: bool): Space {
    s.(waiting := s.waiting + [Request(p, isInput)])
  }
}
