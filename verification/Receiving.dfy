/** Receiving a whole tuple or pattern (linda_common.cpp, receiveTuple and receivePattern). */
module Receiving {
  import opened Types
  import opened Seqs
  import opened Framing
  import opened Codec
  import opened Terminator
  import opened Link

  // Blocked: waiting in read(2) for more bytes. Threw: a message of another type came.
  datatype Reception<+T> = Got(items: seq<T>) | Blocked | Threw

  function ElemOf(m: Message): Option<TupleElem> {
    if m.TupleElemMessage? then Some(m.elem) else None
  }

  function PatternOf(m: Message): Option<Pattern> {
    if m.PatternMessage? then Some(m.pattern) else None
  }

  // The next n messages, if they are of the type that `pick` accepts, and what is left over.
  function Receive<T>(ms: seq<Option<Message>>, n: int, pick: Message -> Option<T>)
    : (r: (Reception<T>, seq<Option<Message>>))
    ensures |r.1| <= |ms| && (n > 0 && ms != [] ==> |r.1| < |ms|)
    decreases |ms|
  {
    if n <= 0 then (Got([]), ms)
    else
      var (m, rest) := NextRead(ms);
      if m.None? then (Blocked, [])
      else if pick(m.value).None? then (Threw, rest)
      else Behind([pick(m.value).value], Receive(rest, n - 1, pick))
  }

  lemma {:induction false} LeftIsSuffix<T>(ms: seq<Option<Message>>, n: int, pick: Message -> Option<T>)
    ensures Suffix(Receive(ms, n, pick).1, ms)
    decreases |ms|
  {
    if n > 0 {
      var (m, rest) := NextRead(ms);
      NextReadIsSuffix(ms);
      if m.Some? && pick(m.value).Some? {
        LeftIsSuffix(rest, n - 1, pick);
      }
    }
  }

  // What is received in all, behind these items.
  function Behind<T>(items: seq<T>, rest: (Reception<T>, seq<Option<Message>>)): (Reception<T>, seq<Option<Message>>) {
    (if rest.0.Got? then Got(items + rest.0.items) else rest.0, rest.1)
  }

  // Every frame in front of `left` can be read.
  predicate AllReadTo(ms: seq<Option<Message>>, left: seq<Option<Message>>) {
    Suffix(left, ms) && forall i :: 0 <= i < |ms| - |left| ==> ms[i].Some?
  }

  // The frames in front of `left` are received without a byte being refused.
  predicate Clear(ms: seq<Option<Message>>, left: seq<Option<Message>>, maxSize: nat) {
    |ms| <= maxSize || AllReadTo(ms, left)
  }

  // Reception took the feed from p to q. Frames that cannot be read can make it block early;
  // if it does not block, or all frames it takes can be read, it is the one the frames spell.
  ghost predicate Received<T>(p: Feed, q: Feed, n: int, pick: Message -> Option<T>, r: Reception<T>) {
    var (all, left) := Receive(p.messages, n, pick);
    && q.partial == p.partial && Suffix(q.messages, p.messages)
    && (!r.Blocked? || AllReadTo(p.messages, left) ==> (r, q.messages) == (all, left))
  }

  // i of n items have been received; the rest is what the frames that are left yield.
  ghost predicate Underway<T>(p: Feed, n: int, pick: Message -> Option<T>,
                              items: seq<T>, i: int, q: Feed) {
    var all, rest := Receive(p.messages, n, pick), Receive(q.messages, n - i, pick);
    && q.partial == p.partial && Suffix(q.messages, p.messages)
    && all == Behind(items, rest)
  }

  lemma BehindNothing<T>(rest: (Reception<T>, seq<Option<Message>>))
    ensures Behind([], rest) == rest
  {
    if rest.0.Got? {
      assert [] + rest.0.items == rest.0.items;
    }
  }

  lemma BehindOne<T>(items: seq<T>, item: T, rest: (Reception<T>, seq<Option<Message>>))
    ensures Behind(items, Behind([item], rest)) == Behind(items + [item], rest)
  {
    if rest.0.Got? {
      Assoc(items, [item], rest.0.items);
    }
  }

  lemma NoneYet<T>(p: Feed, n: int, pick: Message -> Option<T>)
    ensures Underway(p, n, pick, [], 0, p)
  {
    BehindNothing(Receive(p.messages, n, pick));
  }

  lemma AllThere<T>(p: Feed, n: int, pick: Message -> Option<T>, items: seq<T>, i: int, q: Feed)
    requires Underway(p, n, pick, items, i, q) && i >= n
    ensures Received(p, q, n, pick, Got(items))
  {
    assert items + [] == items;
    assert Receive(q.messages, n - i, pick) == (Got([]), q.messages);
  }

  lemma SuffixOfSuffix(a: seq<Option<Message>>, b: seq<Option<Message>>, c: seq<Option<Message>>)
    requires Suffix(a, b) && Suffix(b, c)
    ensures Suffix(a, c)
  {
  }

  lemma StillReadTo(frames: seq<Option<Message>>, later: seq<Option<Message>>, left: seq<Option<Message>>)
    requires AllReadTo(frames, left) && Suffix(later, frames) && Suffix(left, later)
    ensures AllReadTo(later, left)
  {
    forall i | 0 <= i < |later| - |left| ensures later[i].Some? {
      assert later[i] == frames[|frames| - |later| + i];
    }
  }

  lemma BlockedEarly<T>(p: Feed, n: int, pick: Message -> Option<T>, items: seq<T>, i: int,
                        q: Feed, q1: Feed)
    requires Underway(p, n, pick, items, i, q) && i < n
    requires Arrived(q, None, q1) && (q.messages == [] || q.messages[0].None?)
    ensures Received(p, q1, n, pick, Blocked)
  {
    SuffixOfSuffix(q1.messages, q.messages, p.messages);
    var left := Receive(p.messages, n, pick).1;
    if AllReadTo(p.messages, left) {
      StillReadTo(p.messages, q.messages, left);
    }
  }

  lemma OneMore<T>(p: Feed, n: int, pick: Message -> Option<T>, items: seq<T>, i: int,
                   q: Feed, m: Message, q1: Feed)
    requires Underway(p, n, pick, items, i, q) && i < n && Arrived(q, Some(m), q1)
    ensures pick(m).None? ==> Received(p, q1, n, pick, Threw)
    ensures pick(m).Some? ==> Underway(p, n, pick, items + [pick(m).value], i + 1, q1)
    ensures Suffix(q1.messages, q.messages)
  {
    NextReadIsSuffix(q.messages);
    SuffixOfSuffix(q1.messages, q.messages, p.messages);
    if pick(m).Some? {
      BehindOne(items, pick(m).value, Receive(q1.messages, n - (i + 1), pick));
    }
  }

  lemma StaysClear<T>(q: Feed, q1: Feed, n: int, pick: Message -> Option<T>, maxSize: nat)
    requires Clear(q.messages, Receive(q.messages, n, pick).1, maxSize) && Suffix(q1.messages, q.messages)
    requires Receive(q1.messages, n - 1, pick).1 == Receive(q.messages, n, pick).1
    ensures Clear(q1.messages, Receive(q1.messages, n - 1, pick).1, maxSize)
  {
    if |q.messages| > maxSize {
      StillReadTo(q.messages, q1.messages, Receive(q.messages, n, pick).1);
    }
  }

  // The reception goes on without a byte being refused, if it started so.
  ghost predicate Going<T>(p: Feed, n: int, pick: Message -> Option<T>, items: seq<T>, i: int, q: Feed, maxSize: nat) {
    Clear(p.messages, Receive(p.messages, n, pick).1, maxSize) ==>
      Underway(p, n, pick, items, i, q) && Clear(q.messages, Receive(q.messages, n - i, pick).1, maxSize)
  }

  // What a reception gives, unless bytes may be refused.
  ghost predicate Outcome<T>(p: Feed, q: Feed, n: int, pick: Message -> Option<T>, r: Reception<T>, maxSize: nat) {
    Clear(p.messages, Receive(p.messages, n, pick).1, maxSize) ==> Received(p, q, n, pick, r)
  }

  // One more call of readFromPipeUntilMessageFound.
  lemma Step<T>(p: Feed, n: int, pick: Message -> Option<T>, items: seq<T>, i: int, q: Feed, maxSize: nat,
                message: Option<Message>, q1: Feed)
    requires Going(p, n, pick, items, i, q, maxSize) && i < n
    requires Delivers(q, message, q1, maxSize)
    ensures message.None? ==> Outcome(p, q1, n, pick, Blocked, maxSize)
    ensures message.Some? && pick(message.value).None? ==> Outcome(p, q1, n, pick, Threw, maxSize)
    ensures message.Some? && pick(message.value).Some? ==>
      Going(p, n, pick, items + [pick(message.value).value], i + 1, q1, maxSize)
  {
    if Clear(p.messages, Receive(p.messages, n, pick).1, maxSize) {
      if message.None? {
        BlockedEarly(p, n, pick, items, i, q, q1);
      } else {
        OneMore(p, n, pick, items, i, q, message.value, q1);
        if pick(message.value).Some? {
          StaysClear(q, q1, n - i, pick, maxSize);
        }
      }
    }
  }

  lemma Start<T>(p: Feed, n: int, pick: Message -> Option<T>, maxSize: nat)
    ensures Going(p, n, pick, [], 0, p, maxSize)
  {
    NoneYet(p, n, pick);
  }

  lemma Finish<T>(p: Feed, n: int, pick: Message -> Option<T>, items: seq<T>, i: int, q: Feed, maxSize: nat)
    requires Going(p, n, pick, items, i, q, maxSize) && i >= n
    ensures Outcome(p, q, n, pick, Got(items), maxSize)
  {
    if Clear(p.messages, Receive(p.messages, n, pick).1, maxSize) {
      AllThere(p, n, pick, items, i, q);
    }
  }

  // The loop is proved for any statement that every received message carries on.
  ghost predicate CarriesOn<T(!new)>(going: (seq<T>, int, Feed) -> bool, outcome: (Reception<T>, Feed) -> bool,
                                     n: int, pick: Message -> Option<T>, maxSize: nat) {
    && (forall items, i, q :: going(items, i, q) && i >= n ==> outcome(Got(items), q))
    && (forall items, i, q, message, q1 :: going(items, i, q) && i < n && Delivers(q, message, q1, maxSize) ==>
          && (message.None? ==> outcome(Blocked, q1))
          && (message.Some? && pick(message.value).None? ==> outcome(Threw, q1))
          && (message.Some? && pick(message.value).Some? ==> going(items + [pick(message.value).value], i + 1, q1)))
  }

  // What readFromPipeUntilMessageFound says of the feed.
  ghost predicate Delivers(q: Feed, message: Option<Message>, q1: Feed, maxSize: nat) {
    Safe(q.messages, maxSize) ==>
      Arrived(q, message, q1) && (message.None? ==> q.messages == [] || q.messages[0].None?)
  }

  ghost function GoingFrom<T>(p: Feed, n: int, pick: Message -> Option<T>, maxSize: nat): (seq<T>, int, Feed) -> bool {
    (items, i, q) => Going(p, n, pick, items, i, q, maxSize)
  }

  ghost function OutcomeFrom<T>(p: Feed, n: int, pick: Message -> Option<T>, maxSize: nat)
    : (Reception<T>, Feed) -> bool
  {
    (r, q) => Outcome(p, q, n, pick, r, maxSize)
  }

  lemma ReceptionCarriesOn<T(!new)>(p: Feed, n: int, pick: Message -> Option<T>, maxSize: nat)
    ensures GoingFrom(p, n, pick, maxSize)([], 0, p)
    ensures CarriesOn(GoingFrom(p, n, pick, maxSize), OutcomeFrom(p, n, pick, maxSize), n, pick, maxSize)
  {
    var going, outcome := GoingFrom(p, n, pick, maxSize), OutcomeFrom(p, n, pick, maxSize);
    Start(p, n, pick, maxSize);
    forall items, i, q | going(items, i, q) && i >= n ensures outcome(Got(items), q) {
      Finish(p, n, pick, items, i, q, maxSize);
    }
    forall items, i, q, message, q1 | going(items, i, q) && i < n && Delivers(q, message, q1, maxSize)
      ensures message.None? ==> outcome(Blocked, q1)
      ensures message.Some? && pick(message.value).None? ==> outcome(Threw, q1)
      ensures message.Some? && pick(message.value).Some? ==> going(items + [pick(message.value).value], i + 1, q1)
    {
      Step(p, n, pick, items, i, q, maxSize, message, q1);
    }
  }

  // The messages that were taken.
  ghost predicate Taken<T>(ft: FloatText, ms: seq<Message>, items: seq<T>, pick: Message -> Option<T>) {
    |items| == |ms| && forall j :: 0 <= j < |ms| ==> pick(ms[j]) == Some(items[j]) && Resendable(ft, ms[j])
  }

  // The loop of receiveTuple and receivePattern; they differ in the type they accept.
  method ReceiveItems<T(!new)>(ft: FloatText, tupleLength: int, buffer: MessageBuffer, pipe: Pipe,
                               pick: Message -> Option<T>, ghost going: (seq<T>, int, Feed) -> bool,
                               ghost outcome: (Reception<T>, Feed) -> bool)
    returns (r: Reception<T>, ghost ms: seq<Message>)
    requires buffer.Valid() && buffer.maxSize > 0
    requires CarriesOn(going, outcome, tupleLength, pick, buffer.maxSize) && going([], 0, Incoming(ft, buffer, pipe))
    modifies buffer, pipe
    ensures buffer.Valid()
    ensures Unserved(buffer.Contents(), pipe.bytes) <= old(Unserved(buffer.Contents(), pipe.bytes))
    ensures r.Got? ==> |r.items| == (if tupleLength < 0 then 0 else tupleLength) && Taken(ft, ms, r.items, pick)
    ensures outcome(r, Incoming(ft, buffer, pipe))
  {
    var items: seq<T> := [];
    var i := 0;
    ms := [];
    while i < tupleLength
      invariant buffer.Valid() && |items| == i && (i <= tupleLength || i == 0)
      invariant Taken(ft, ms, items, pick)
      invariant Unserved(buffer.Contents(), pipe.bytes) <= old(Unserved(buffer.Contents(), pipe.bytes))
      invariant going(items, i, Incoming(ft, buffer, pipe))
    {
      ghost var q := Incoming(ft, buffer, pipe);
      var message := NextMessage(ft, buffer, pipe);
      assert Delivers(q, message, Incoming(ft, buffer, pipe), buffer.maxSize);
      if message.None? {
        return Blocked, ms;
      }
      var item := pick(message.value);
      if item.None? {
        return Threw, ms;
      }
      items := items + [item.value];
      ms := ms + [message.value];
      i := i + 1;
    }
    return Got(items), ms;
  }

  method ReceiveTuple(ft: FloatText, tupleLength: int, buffer: MessageBuffer, pipe: Pipe)
    returns (r: Reception<TupleElem>)
    requires buffer.Valid() && buffer.maxSize > 0
    modifies buffer, pipe
    ensures buffer.Valid()
    ensures Unserved(buffer.Contents(), pipe.bytes) <= old(Unserved(buffer.Contents(), pipe.bytes))
    ensures r.Got? ==> |r.items| == (if tupleLength < 0 then 0 else tupleLength) && CleanTuple(ft, r.items)
    ensures Outcome(old(Incoming(ft, buffer, pipe)), Incoming(ft, buffer, pipe), tupleLength, ElemOf, r, buffer.maxSize)
  {
    ghost var p := Incoming(ft, buffer, pipe);
    ReceptionCarriesOn(p, tupleLength, ElemOf, buffer.maxSize);
    ghost var ms;
    r, ms := ReceiveItems(ft, tupleLength, buffer, pipe, ElemOf, GoingFrom(p, tupleLength, ElemOf, buffer.maxSize),
                          OutcomeFrom(p, tupleLength, ElemOf, buffer.maxSize));
    if r.Got? {
      TakenIsClean(ft, ms, r.items);
    }
  }

  // Each element can be sent back.
  predicate CleanTuple(ft: FloatText, t: Tuple) {
    forall i :: 0 <= i < |t| ==> Clean(ft, TupleElemMessage(t[i]))
  }

  lemma TakenIsClean(ft: FloatText, ms: seq<Message>, t: Tuple)
    requires Taken(ft, ms, t, ElemOf)
    ensures CleanTuple(ft, t)
  {
    forall i | 0 <= i < |t| ensures Clean(ft, TupleElemMessage(t[i])) {
      assert ElemOf(ms[i]) == Some(t[i]) && Resendable(ft, ms[i]);
    }
  }

  method ReceivePattern(ft: FloatText, tupleLength: int, buffer: MessageBuffer, pipe: Pipe)
    returns (r: Reception<Pattern>)
    requires buffer.Valid() && buffer.maxSize > 0
    modifies buffer, pipe
    ensures buffer.Valid()
    ensures Unserved(buffer.Contents(), pipe.bytes) <= old(Unserved(buffer.Contents(), pipe.bytes))
    ensures r.Got? ==> |r.items| == if tupleLength < 0 then 0 else tupleLength
    ensures Outcome(old(Incoming(ft, buffer, pipe)), Incoming(ft, buffer, pipe), tupleLength, PatternOf, r,
                    buffer.maxSize)
  {
    ghost var p := Incoming(ft, buffer, pipe);
    ReceptionCarriesOn(p, tupleLength, PatternOf, buffer.maxSize);
    ghost var ms;
    r, ms := ReceiveItems(ft, tupleLength, buffer, pipe, PatternOf,
                          GoingFrom(p, tupleLength, PatternOf, buffer.maxSize),
                          OutcomeFrom(p, tupleLength, PatternOf, buffer.maxSize));
  }
}
