/** The thread that serves one client (service_thread.hpp, service_thread.cpp). */
module Service {
  import opened Types
  import opened Numbers
  import opened Seqs
  import opened TupleSpace
  import opened Framing
  import opened Codec
  import opened Terminator
  import opened Link
  import opened Receiving
  import opened Database
  import opened Others
  import opened Replies

  // How one iteration of the main loop ends.
  datatype Status =
    | Replied
    | Ignored
    | Disconnected
    // In waitForTuple.
    | Waiting
    // In read(2).
    | Starved
    // An exception leaves the main loop.
    | Aborted

  // What the messages make the service thread do next.
  datatype Heard = Operation(cmd: Command) | Connection(connect: bool) | Nothing | TooFew | BadOperand

  function Hear(ms: seq<Option<Message>>): (r: (Heard, seq<Option<Message>>))
    ensures |r.1| <= |ms| && (ms != [] ==> |r.1| < |ms|)
  {
    var (m, rest) := NextRead(ms);
    match m
    case None => (TooFew, [])
    case Some(ConnectionMessage(c)) => (Connection(c), rest)
    case Some(OperationMessage(op, size)) => HearOperation(op, ToSigned(size), rest)
    case _ => (Nothing, rest)
  }

  function HearOperation(op: Byte, n: int, ms: seq<Option<Message>>): (r: (Heard, seq<Option<Message>>))
    ensures |r.1| <= |ms|
  {
    if op == OP_LINDA_WRITE then
      var (r, left) := Receive(ms, n, ElemOf);
      (WrittenOf(r), left)
    else if op == OP_LINDA_READ || op == OP_LINDA_INPUT then
      var (r, left) := Receive(ms, n, PatternOf);
      (OperandOf(op, r), left)
    else (Nothing, ms)
  }

  function WrittenOf(r: Reception<TupleElem>): Heard {
    match r
    case Got(tuple) => Operation(Write(tuple))
    case Blocked => TooFew
    case Threw => BadOperand
  }

  function OperandOf(op: Byte, r: Reception<Pattern>): Heard {
    match r
    case Got(p) => Operation(if op == OP_LINDA_READ then Read(p) else Input(p))
    case Blocked => TooFew
    case Threw => BadOperand
  }

  // What a reply is sent as.
  function ReplyMessages(answer: Option<Tuple>): seq<Message> {
    if answer.Some? then TupleMessages(OP_RETURN_RESULT, answer.value) else []
  }

  // What h makes of the database while the others do their deeds, and the answer.
  function Settled(s: Space, h: Heard, turn: Turn): (Status, Space, Option<Tuple>) {
    match h
    case Operation(cmd) =>
      var (s1, answer) := PerformAmong(s, cmd, turn);
      (if answer.Some? then Replied else Waiting, s1, answer)
    case Connection(c) => if c then (Ignored, HappenAll(s, turn.after), None) else (Disconnected, s, None)
    case Nothing => (Ignored, HappenAll(s, turn.after), None)
    case TooFew => (Starved, s, None)
    case BadOperand => (Aborted, s, None)
  }

  predicate GoesOn(status: Status) {
    status == Replied || status == Ignored
  }

  // How far the main loop gets with these messages.
  datatype Progress = Progress(status: Status, space: Space, replies: seq<Message>, left: seq<Option<Message>>)

  // One iteration that ended so, and the rest if the loop goes on.
  function Then(status: Status, s: Space, reply: seq<Message>, left: seq<Option<Message>>, rest: Progress): Progress {
    if GoesOn(status) then rest.(replies := reply + rest.replies) else Progress(status, s, reply, left)
  }

  function Serve(ms: seq<Option<Message>>, s: Space, others: seq<Turn>): (r: Progress)
    ensures |r.left| <= |ms|
    decreases |ms|
  {
    if ms == [] then Progress(Starved, s, [], [])
    else
      var (h, left) := Hear(ms);
      var (status, s1, answer) := Settled(s, h, Next(others));
      Then(status, s1, ReplyMessages(answer), left, Serve(left, s1, Later(others)))
  }

  lemma ServeNext(ms: seq<Option<Message>>, s: Space, others: seq<Turn>)
    ensures var (h, left) := Hear(ms);
      var (status, s1, answer) := Settled(s, h, Next(others));
      Serve(ms, s, others) == Then(status, s1, ReplyMessages(answer), left, Serve(left, s1, Later(others)))
  {
    if ms == [] {
      assert Hear(ms) == (TooFew, []);
    }
  }

  // ---- What is heard is taken from the feed ------------------------------------------

  lemma OperationIsSuffix(op: Byte, n: int, ms: seq<Option<Message>>)
    ensures Suffix(HearOperation(op, n, ms).1, ms)
  {
    LeftIsSuffix(ms, n, ElemOf);
    LeftIsSuffix(ms, n, PatternOf);
  }

  lemma HearIsSuffix(ms: seq<Option<Message>>)
    ensures Suffix(Hear(ms).1, ms)
  {
    var (m, rest) := NextRead(ms);
    NextReadIsSuffix(ms);
    if m.Some? && m.value.OperationMessage? {
      OperationIsSuffix(m.value.opType, ToSigned(m.value.tupleSize), rest);
      SuffixOfSuffix(Hear(ms).1, rest, ms);
    }
  }

  lemma {:induction false} ServeLeavesSuffix(ms: seq<Option<Message>>, s: Space, others: seq<Turn>)
    ensures Suffix(Serve(ms, s, others).left, ms)
    decreases |ms|
  {
    if ms != [] {
      var (h, left) := Hear(ms);
      HearIsSuffix(ms);
      var (status, s1, answer) := Settled(s, h, Next(others));
      if GoesOn(status) {
        ServeLeavesSuffix(left, s1, Later(others));
        SuffixOfSuffix(Serve(ms, s, others).left, left, ms);
      }
    }
  }

  // The thread took h from the feed p and left q. Frames that cannot be read can make it starve
  // early; if it does not, or all frames it takes can be read, it heard what the frames say.
  ghost predicate Took(p: Feed, q: Feed, h: Heard, heard: (Heard, seq<Option<Message>>)) {
    && q.partial == p.partial
    && (h != TooFew || AllReadTo(p.messages, heard.1) ==> heard == (h, q.messages))
  }

  // So it is unless bytes may be refused.
  ghost predicate Heeded(p: Feed, q: Feed, h: Heard, heard: (Heard, seq<Option<Message>>), maxSize: nat) {
    Clear(p.messages, heard.1, maxSize) ==> Took(p, q, h, heard)
  }

  lemma HeardPattern(op: Byte, n: int, p: Feed, q: Feed, r: Reception<Pattern>, maxSize: nat)
    requires op == OP_LINDA_READ || op == OP_LINDA_INPUT
    requires Outcome(p, q, n, PatternOf, r, maxSize)
    ensures Heeded(p, q, OperandOf(op, r), HearOperation(op, n, p.messages), maxSize)
  {
  }

  lemma HeardTuple(n: int, p: Feed, q: Feed, r: Reception<TupleElem>, maxSize: nat)
    requires Outcome(p, q, n, ElemOf, r, maxSize)
    ensures Heeded(p, q, WrittenOf(r), HearOperation(OP_LINDA_WRITE, n, p.messages), maxSize)
  {
  }

  lemma HeardNone(p: Feed, q: Feed, maxSize: nat)
    requires Delivers(p, None, q, maxSize)
    ensures Heeded(p, q, TooFew, Hear(p.messages), maxSize)
  {
    var left := Hear(p.messages).1;
    if Clear(p.messages, left, maxSize) {
      assert Safe(p.messages, maxSize);
    }
  }

  // The message m came first; what follows it decides.
  lemma HeardSome(p: Feed, m: Message, p1: Feed, maxSize: nat)
    requires Delivers(p, Some(m), p1, maxSize) && Clear(p.messages, Hear(p.messages).1, maxSize)
    ensures NextRead(p.messages) == (Some(m), p1.messages) && p1.partial == p.partial
    ensures Clear(p1.messages, Hear(p.messages).1, maxSize)
    ensures AllReadTo(p.messages, Hear(p.messages).1) ==> AllReadTo(p1.messages, Hear(p.messages).1)
  {
    var left := Hear(p.messages).1;
    assert Safe(p.messages, maxSize);
    NextReadIsSuffix(p.messages);
    if m.OperationMessage? {
      OperationIsSuffix(m.opType, ToSigned(m.tupleSize), p1.messages);
    }
    if AllReadTo(p.messages, left) {
      StillReadTo(p.messages, p1.messages, left);
    }
  }

  lemma HeardOperation(p: Feed, m: Message, p1: Feed, q: Feed, h: Heard, maxSize: nat)
    requires Delivers(p, Some(m), p1, maxSize) && m.OperationMessage?
    requires Heeded(p1, q, h, HearOperation(m.opType, ToSigned(m.tupleSize), p1.messages), maxSize)
    ensures Heeded(p, q, h, Hear(p.messages), maxSize)
  {
    if Clear(p.messages, Hear(p.messages).1, maxSize) {
      HeardSome(p, m, p1, maxSize);
    }
  }

  lemma HeardOther(p: Feed, m: Message, q: Feed, maxSize: nat)
    requires Delivers(p, Some(m), q, maxSize) && !m.OperationMessage?
    ensures Heeded(p, q, if m.ConnectionMessage? then Connection(m.connect) else Nothing, Hear(p.messages), maxSize)
  {
    if Clear(p.messages, Hear(p.messages).1, maxSize) {
      HeardSome(p, m, q, maxSize);
    }
  }

  // ---- What is done ------------------------------------------------------------------

  // So far the thread has done what h asks for, and the others their deeds in between.
  function SoFar(s: Space, h: Heard, between: seq<Deed>): (Status, Space, Option<Tuple>) {
    Settled(s, h, Turn(between, []))
  }

  // The database went from s to s1.
  ghost predicate Did(ft: FloatText, h: Heard, between: seq<Deed>, s: Space, s1: Space, out: Bytes, out1: Bytes,
                      status: Status) {
    var (st, t, answer) := SoFar(s, h, between);
    status == st && s1 == t && out1 == out + Wire(ft, ReplyMessages(answer))
  }

  lemma DidNothing(ft: FloatText, h: Heard, between: seq<Deed>, s: Space, out: Bytes)
    requires !h.Operation?
    ensures Did(ft, h, between, s, s, out, out, SoFar(s, h, between).0)
  {
    assert out + Wire(ft, []) == out;
  }

  // What the others do afterwards does not change what a thread makes of h that has not to wait, only
  // the database.
  lemma SettledAmong(s: Space, h: Heard, turn: Turn)
    ensures var (st, s1, answer) := SoFar(s, h, turn.between);
      && (st == Waiting ==> h.Operation? && PerformAround(s, h.cmd, turn.between) == (s1, None) && answer == None)
      && (GoesOn(st) ==> Settled(s, h, turn) == (st, HappenAll(s1, turn.after), answer))
      && (!GoesOn(st) && st != Waiting ==> Settled(s, h, turn) == (st, s1, None) && answer == None)
  {
  }

  lemma SettledAsleep(s: Space, cmd: Command, s1: Space, turn: Turn)
    requires PerformAround(s, cmd, turn.between) == (s1, None)
    ensures s1.waiting != []
    ensures var pl, s2 := MoveAll(s1, Newest(s1), turn.after), HappenAll(s1, turn.after);
      Settled(s, Operation(cmd), turn) ==
      if pl.Passed? then (Replied, s2, Some(pl.tuple)) else (Waiting, s2, None)
  {
  }

  lemma {:induction false} AsleepStaysQueued(s: Space, i: nat, deeds: seq<Deed>)
    ensures !MoveAll(s, At(i), deeds).Away?
    decreases |deeds|
  {
    if deeds != [] {
      var pl := Move(s, At(i), deeds[0]);
      if pl.At? {
        AsleepStaysQueued(Happen(s, deeds[0]), pl.i, deeds[1..]);
      } else {
        PassedStays(Happen(s, deeds[0]), pl.tuple, deeds[1..]);
      }
    }
  }

  // As many elements as the header says, each of them fit to be sent.
  predicate SentBack(ft: FloatText, n: int, t: Tuple) {
    |t| == (if n < 0 then 0 else n) && CleanTuple(ft, t)
  }

  // The reply was sent at once or after waiting.
  lemma SentInAll(ft: FloatText, s: Space, h: Heard, turn: Turn, out: Bytes, sent: Bytes, all: Bytes)
    requires var (st, _, answer) := SoFar(s, h, turn.between); sent == out + Wire(ft, ReplyMessages(answer))
    requires var late := if SoFar(s, h, turn.between).0 == Waiting then ReplyMessages(Settled(s, h, turn).2) else [];
      all + Wire(ft, []) == sent + Wire(ft, late)
    ensures all == out + Wire(ft, ReplyMessages(Settled(s, h, turn).2))
  {
    SettledAmong(s, h, turn);
    assert all + [] == all && out + [] == out && sent + [] == sent;
  }

  // ---- The loop ----------------------------------------------------------------------

  // The main loop took the feed from p to p1 and the database from s to s1, and sent these messages.
  ghost predicate LoopServed(p: Feed, s: Space, others: seq<Turn>, status: Status,
                             p1: Feed, s1: Space, sent: seq<Message>) {
    Serve(p.messages, s, others) == Progress(status, s1, sent, p1.messages) && p1.partial == p.partial
  }

  // The loop has sent these messages, and goes on or has stopped there.
  ghost predicate OnTheWay(all: Progress, p: Feed, status: Status, s: Space, sent: seq<Message>, q: Feed,
                           others: seq<Turn>) {
    && all == Then(status, s, sent, q.messages, Serve(q.messages, s, others))
    && q.partial == p.partial && AllReadTo(q.messages, all.left)
  }

  lemma OnTheWayNext(all: Progress, p: Feed, before: Status, s: Space, sent: seq<Message>, q: Feed,
                     others: seq<Turn>, h: Heard, q1: Feed, maxSize: nat)
    requires OnTheWay(all, p, before, s, sent, q, others) && GoesOn(before)
    requires Heeded(q, q1, h, Hear(q.messages), maxSize)
    ensures var (status, s1, answer) := Settled(s, h, Next(others));
      OnTheWay(all, p, status, s1, sent + ReplyMessages(answer), q1, Later(others))
  {
    var left := Hear(q.messages).1;
    TakenByServing(q.messages, s, others);
    ReadUpTo(q.messages, left, all.left);
    assert Hear(q.messages) == (h, q1.messages);
    StillReadTo(q.messages, left, all.left);
    var (status, s1, answer) := Settled(s, h, Next(others));
    ServeNext(q.messages, s, others);
    ThenAgain(all, before, s, sent, q.messages, Serve(q.messages, s, others), status, s1, ReplyMessages(answer), left,
              Serve(left, s1, Later(others)));
  }

  lemma ThenAgain(all: Progress, before: Status, s: Space, sent: seq<Message>, ms: seq<Option<Message>>, here: Progress,
                  status: Status, s1: Space, reply: seq<Message>, left: seq<Option<Message>>, rest: Progress)
    requires all == Then(before, s, sent, ms, here) && GoesOn(before)
    requires here == Then(status, s1, reply, left, rest)
    ensures all == Then(status, s1, sent + reply, left, rest)
  {
    Assoc(sent, reply, rest.replies);
  }

  lemma TakenByServing(ms: seq<Option<Message>>, s: Space, others: seq<Turn>)
    ensures Suffix(Hear(ms).1, ms) && Suffix(Serve(ms, s, others).left, Hear(ms).1)
  {
    HearIsSuffix(ms);
    var (h, left) := Hear(ms);
    var (status, s1, answer) := Settled(s, h, Next(others));
    ServeNext(ms, s, others);
    ServeLeavesSuffix(left, s1, Later(others));
  }

  lemma ReadUpTo(ms: seq<Option<Message>>, left: seq<Option<Message>>, last: seq<Option<Message>>)
    requires AllReadTo(ms, last) && Suffix(left, ms) && Suffix(last, left)
    ensures AllReadTo(ms, left)
  {
  }

  // As long as no byte is refused, nothing is done before something has been heard.
  ghost predicate Silent(p: Feed, s0: Space, status: Status, s: Space, sent: seq<Message>, q: Feed) {
    s == s0 && sent == [] && (status == Starved || (GoesOn(status) && q == p))
  }

  lemma StaysSilent(p: Feed, s0: Space, h: Heard, q1: Feed, turn: Turn, maxSize: nat)
    requires |p.messages| <= maxSize && Hear(p.messages).0 == TooFew
    requires Heeded(p, q1, h, Hear(p.messages), maxSize)
    ensures Settled(s0, h, turn) == (Starved, s0, None)
  {
  }

  // What the loop does to feed, database and sent messages as long as no byte is refused: if all
  // frames it takes can be read, it serves what they say; if nothing is said, it does nothing.
  ghost predicate LoopResult(p: Feed, s0: Space, others: seq<Turn>, maxSize: nat,
                             status: Status, q: Feed, s: Space, sent: seq<Message>) {
    && (AllReadTo(p.messages, Serve(p.messages, s0, others).left) ==> LoopServed(p, s0, others, status, q, s, sent))
    && (|p.messages| <= maxSize && Hear(p.messages).0 == TooFew ==> status == Starved && s == s0 && sent == [])
  }

  ghost predicate LoopState(p: Feed, s0: Space, others: seq<Turn>, maxSize: nat,
                            status: Status, q: Feed, s: Space, sent: seq<Message>, later: seq<Turn>) {
    var all := Serve(p.messages, s0, others);
    && (AllReadTo(p.messages, all.left) ==> OnTheWay(all, p, status, s, sent, q, later))
    && (|p.messages| <= maxSize && Hear(p.messages).0 == TooFew ==> Silent(p, s0, status, s, sent, q))
  }

  lemma LoopStart(p: Feed, s: Space, others: seq<Turn>, maxSize: nat)
    ensures LoopState(p, s, others, maxSize, Ignored, p, s, [], others)
  {
    var all := Serve(p.messages, s, others);
    assert [] + all.replies == all.replies;
  }

  lemma LoopNext(p: Feed, s0: Space, others: seq<Turn>, maxSize: nat, status: Status, q: Feed, s: Space,
                 sent: seq<Message>, later: seq<Turn>, h: Heard, q1: Feed)
    requires LoopState(p, s0, others, maxSize, status, q, s, sent, later) && GoesOn(status)
    requires Heeded(q, q1, h, Hear(q.messages), maxSize)
    ensures var (st, s1, answer) := Settled(s, h, Next(later));
      LoopState(p, s0, others, maxSize, st, q1, s1, sent + ReplyMessages(answer), Later(later))
  {
    var all := Serve(p.messages, s0, others);
    if AllReadTo(p.messages, all.left) {
      OnTheWayNext(all, p, status, s, sent, q, later, h, q1, maxSize);
    }
    if |p.messages| <= maxSize && Hear(p.messages).0 == TooFew {
      StaysSilent(p, s0, h, q1, Next(later), maxSize);
    }
  }

  lemma LoopEnd(p: Feed, s0: Space, others: seq<Turn>, maxSize: nat, status: Status, q: Feed, s: Space,
                sent: seq<Message>, later: seq<Turn>)
    requires LoopState(p, s0, others, maxSize, status, q, s, sent, later) && !GoesOn(status)
    ensures LoopResult(p, s0, others, maxSize, status, q, s, sent)
  {
  }

  predicate OthersOk(ft: FloatText, others: seq<Turn>) {
    forall i :: 0 <= i < |others| ==> TurnOk(ft, others[i])
  }

  // Replies keep to what can be sent.
  lemma RepliesStayClean(ft: FloatText, s: Space, h: Heard, others: seq<Turn>, sent: seq<Message>)
    requires AllReplyable(ft, s.store) && HeardReplyable(ft, h) && OthersOk(ft, others) && AllClean(ft, sent)
    ensures var (_, s1, answer) := Settled(s, h, Next(others));
      AllReplyable(ft, s1.store) && AllClean(ft, sent + ReplyMessages(answer)) && OthersOk(ft, Later(others))
  {
    assert TurnOk(ft, Next(others));
    DeedsKeepReplyable(ft, s, Next(others).after);
    if h.Operation? {
      AnswersAreReplyable(ft, s, h.cmd, Next(others));
    }
  }

  // A write that was heard can be sent back as a reply.
  predicate HeardReplyable(ft: FloatText, h: Heard) {
    h.Operation? && h.cmd.Write? ==> Replyable(ft, h.cmd.tuple)
  }

  // The second critical section, and the reply if it can be given.
  ghost predicate Completed(ft: FloatText, half: Half, s: Space, s1: Space, out: Bytes, out1: Bytes, status: Status) {
    var (t, answer) := Complete(s, half);
    && s1 == t && status == (if answer.Some? then Replied else Waiting)
    && out1 == out + Wire(ft, ReplyMessages(answer))
  }

  // With a tuple found there is nothing left to do, otherwise the thread queues up.
  lemma CompletesHalf(s: Space, tuple: Tuple, r: Request)
    ensures Complete(s, HalfOf(tuple, r.pattern, r.isInput)) ==
            if tuple == [] then (s.(waiting := s.waiting + [r]), None) else (s, Some(tuple))
  {
  }

  // Both critical sections of cmd, and the reply if it can be given.
  ghost predicate Performed(ft: FloatText, cmd: Command, between: seq<Deed>, s: Space, s1: Space, out: Bytes,
                            out1: Bytes, status: Status) {
    var (t, answer) := PerformAround(s, cmd, between);
    && s1 == t && status == (if answer.Some? then Replied else Waiting)
    && out1 == out + Wire(ft, ReplyMessages(answer))
  }

  lemma BothHalves(ft: FloatText, cmd: Command, between: seq<Deed>, s: Space, half: Half, s1: Space, s2: Space,
                   out: Bytes, out1: Bytes, status: Status)
    requires Begin(s, cmd).1 == half && s1 == HappenAll(Begin(s, cmd).0, between)
    requires Completed(ft, half, s1, s2, out, out1, status)
    ensures Performed(ft, cmd, between, s, s2, out, out1, status)
  {
  }

  lemma PerformedSoFar(s: Space, cmd: Command, between: seq<Deed>)
    ensures var (s1, answer) := PerformAround(s, cmd, between);
      SoFar(s, Operation(cmd), between) == (if answer.Some? then Replied else Waiting, s1, answer)
  {
  }

  // Where the loop is: how its last iteration ended, the feed and the database it left, what it has
  // sent, and what the others are still to do.
  datatype Stage = Stage(status: Status, feed: Feed, space: Space, sent: seq<Message>, later: seq<Turn>)

  // The loop is proved for any statement that every iteration carries on.
  ghost predicate LoopCarriesOn(ft: FloatText, going: Stage -> bool, maxSize: nat) {
    forall g, h, q1 :: going(g) && GoesOn(g.status) && Heeds(ft, g.feed, q1, h, maxSize) ==> going(After(g, h, q1))
  }

  ghost predicate Heeds(ft: FloatText, q: Feed, q1: Feed, h: Heard, maxSize: nat) {
    HeardReplyable(ft, h) && Heeded(q, q1, h, Hear(q.messages), maxSize)
  }

  function After(g: Stage, h: Heard, q1: Feed): Stage {
    var (status, s1, answer) := Settled(g.space, h, Next(g.later));
    Stage(status, q1, s1, g.sent + ReplyMessages(answer), Later(g.later))
  }

  // What is proved of it.
  ghost predicate OnStage(ft: FloatText, p: Feed, s0: Space, others: seq<Turn>, maxSize: nat, g: Stage) {
    && LoopState(p, s0, others, maxSize, g.status, g.feed, g.space, g.sent, g.later)
    && (AllReplyable(ft, s0.store) && OthersOk(ft, others) ==>
          AllReplyable(ft, g.space.store) && AllClean(ft, g.sent) && OthersOk(ft, g.later))
  }

  ghost function Staging(ft: FloatText, p: Feed, s0: Space, others: seq<Turn>, maxSize: nat): Stage -> bool {
    g => OnStage(ft, p, s0, others, maxSize, g)
  }

  lemma ServingCarriesOn(ft: FloatText, p: Feed, s0: Space, others: seq<Turn>, maxSize: nat)
    ensures Staging(ft, p, s0, others, maxSize)(Stage(Ignored, p, s0, [], others))
    ensures LoopCarriesOn(ft, Staging(ft, p, s0, others, maxSize), maxSize)
  {
    LoopStart(p, s0, others, maxSize);
    var going := Staging(ft, p, s0, others, maxSize);
    forall g, h, q1 | going(g) && GoesOn(g.status) && Heeds(ft, g.feed, q1, h, maxSize)
      ensures going(After(g, h, q1))
    {
      LoopNext(p, s0, others, maxSize, g.status, g.feed, g.space, g.sent, g.later, h, q1);
      if AllReplyable(ft, s0.store) && OthersOk(ft, others) {
        RepliesStayClean(ft, g.space, h, g.later, g.sent);
      }
    }
  }

  // Whoever has come besides t came before or after.
  lemma NewOnes<T>(before: set<T>, between: set<T>, after: set<T>, t: T)
    ensures after - before - {t} <= (after - between - {t}) + (between - before - {t})
  {
  }

  class ServiceThread {
    const database: ServerDB
    const fifoRead: Pipe
    const fifoWrite: Pipe
    const awaiting: AwaitingParams
    const messageBuffer: MessageBuffer

    ghost predicate Valid()
      reads this, database, database.waitingThreadsQueue, awaiting, messageBuffer
    {
      && database.RowsOk() && database.QueueOk()
      && fifoRead != fifoWrite && messageBuffer.maxSize > 0 && messageBuffer.Valid()
      && awaiting.locked && awaiting !in database.waitingThreadsQueue
    }

    // The same in waitForTuple: the thread stands last in the queue.
    ghost predicate Asleep()
      reads this, database, database.waitingThreadsQueue, awaiting, messageBuffer
    {
      && database.RowsOk() && database.QueueOk()
      && fifoRead != fifoWrite && messageBuffer.maxSize > 0 && messageBuffer.Valid()
      && var q := database.waitingThreadsQueue; q != [] && q[|q| - 1] == awaiting
    }

    constructor (database: ServerDB, fifoRead: Pipe, fifoWrite: Pipe)
      requires database.RowsOk() && database.QueueOk() && fifoRead != fifoWrite
      ensures Valid() && fresh(awaiting) && fresh(messageBuffer)
      ensures this.database == database && this.fifoRead == fifoRead && this.fifoWrite == fifoWrite
      ensures messageBuffer.maxSize == 100 && messageBuffer.Contents() == NO_BYTES
    {
      this.database, this.fifoRead, this.fifoWrite := database, fifoRead, fifoWrite;
      messageBuffer := new MessageBuffer(BUFFER_SIZE);
      var params := new AwaitingParams();
      awaiting := params;
      new;
      awaiting.locked := true;
    }

    // The end of handleRead and handleInput: reply, or queue up and wait.
    method ReplyOrWait(ft: FloatText, pattern: seq<Pattern>, isInput: bool, tuple: Tuple) returns (status: Status)
      requires Valid()
      modifies database`waitingThreadsQueue, awaiting`tuplePattern, awaiting`isInput, fifoWrite
      ensures if status == Waiting then Asleep() else Valid()
      ensures database.Waiters() <= old(database.Waiters()) + {awaiting}
      ensures Completed(ft, HalfOf(tuple, pattern, isInput), old(database.Abstract()), database.Abstract(),
                        old(fifoWrite.bytes), fifoWrite.bytes, status)
    {
      CompletesHalf(database.Abstract(), tuple, Request(pattern, isInput));
      if tuple == [] {
        awaiting.tuplePattern := pattern;
        awaiting.isInput := isInput;
        assert database.Waiting() == old(database.Waiting());
        database.Enqueue(awaiting);
        assert fifoWrite.bytes == old(fifoWrite.bytes) + Wire(ft, []);
        status := Waiting;
      } else {
        SendTuple(ft, OP_RETURN_RESULT, tuple, fifoWrite);
        status := Replied;
      }
    }

    // The end of handleRead and handleInput once another thread has unlocked the mutex.
    method ReplyAfterWait(ft: FloatText)
      requires database.RowsOk() && database.QueueOk() && !awaiting.locked
      requires fifoRead != fifoWrite && messageBuffer.maxSize > 0 && messageBuffer.Valid()
      modifies awaiting`locked, fifoWrite
      ensures Valid() && database.Abstract() == old(database.Abstract())
      ensures fifoWrite.bytes == old(fifoWrite.bytes) + Wire(ft, ReplyMessages(Some(old(awaiting.passedTuple))))
    {
      var tuple := ServerDB.Resume(awaiting);
      SendTuple(ft, OP_RETURN_RESULT, tuple, fifoWrite);
    }

    // handleRead behind receivePattern, which may have blocked or thrown.
    method ServeRead(ft: FloatText, r: Reception<Pattern>, between: seq<Deed>) returns (status: Status)
      requires Valid()
      modifies database, database.Waiters(), awaiting, fifoWrite
      ensures if status == Waiting then Asleep() else Valid()
      ensures fresh(database.Waiters() - old(database.Waiters()) - {awaiting})
      ensures Did(ft, OperandOf(OP_LINDA_READ, r), between, old(database.Abstract()), database.Abstract(),
                  old(fifoWrite.bytes), fifoWrite.bytes, status)
    {
      assert fifoWrite.bytes + Wire(ft, []) == fifoWrite.bytes;
      match r {
        case Blocked => return Starved;
        case Threw => return Aborted;
        case Got(pattern) =>
          PerformedSoFar(database.Abstract(), Read(pattern), between);
          status := FindReadAndReply(ft, pattern, between);
      }
    }

    method FindReadAndReply(ft: FloatText, pattern: seq<Pattern>, between: seq<Deed>) returns (status: Status)
      requires Valid()
      modifies database, database.Waiters(), awaiting, fifoWrite
      ensures if status == Waiting then Asleep() else Valid()
      ensures fresh(database.Waiters() - old(database.Waiters()) - {awaiting})
      ensures Performed(ft, Read(pattern), between, old(database.Abstract()), database.Abstract(),
                        old(fifoWrite.bytes), fifoWrite.bytes, status)
    {
      ghost var s, out := database.Abstract(), fifoWrite.bytes;
      var tuple := SearchAmong(database, pattern, false, between, awaiting);
      ghost var s1 := database.Abstract();
      status := ReplyOrWait(ft, pattern, false, tuple);
      BothHalves(ft, Read(pattern), between, s, HalfOf(tuple, pattern, false), s1, database.Abstract(), out,
                 fifoWrite.bytes, status);
    }

    // handleInput behind receivePattern.
    method ServeInput(ft: FloatText, r: Reception<Pattern>, between: seq<Deed>) returns (status: Status)
      requires Valid()
      modifies database, database.Waiters(), awaiting, fifoWrite
      ensures if status == Waiting then Asleep() else Valid()
      ensures fresh(database.Waiters() - old(database.Waiters()) - {awaiting})
      ensures Did(ft, OperandOf(OP_LINDA_INPUT, r), between, old(database.Abstract()), database.Abstract(),
                  old(fifoWrite.bytes), fifoWrite.bytes, status)
    {
      assert fifoWrite.bytes + Wire(ft, []) == fifoWrite.bytes;
      match r {
        case Blocked => return Starved;
        case Threw => return Aborted;
        case Got(pattern) =>
          PerformedSoFar(database.Abstract(), Input(pattern), between);
          status := FindInputAndReply(ft, pattern, between);
      }
    }

    method FindInputAndReply(ft: FloatText, pattern: seq<Pattern>, between: seq<Deed>) returns (status: Status)
      requires Valid()
      modifies database, database.Waiters(), awaiting, fifoWrite
      ensures if status == Waiting then Asleep() else Valid()
      ensures fresh(database.Waiters() - old(database.Waiters()) - {awaiting})
      ensures Performed(ft, Input(pattern), between, old(database.Abstract()), database.Abstract(),
                        old(fifoWrite.bytes), fifoWrite.bytes, status)
    {
      ghost var s, out := database.Abstract(), fifoWrite.bytes;
      var tuple := SearchAmong(database, pattern, true, between, awaiting);
      ghost var s1 := database.Abstract();
      status := ReplyOrWait(ft, pattern, true, tuple);
      BothHalves(ft, Input(pattern), between, s, HalfOf(tuple, pattern, true), s1, database.Abstract(), out,
                 fifoWrite.bytes, status);
    }

    // handleWrite behind receiveTuple.
    method ServeWrite(ft: FloatText, r: Reception<TupleElem>, between: seq<Deed>) returns (status: Status)
      requires Valid()
      modifies database, database.Waiters(), fifoWrite
      ensures Valid() && status != Waiting
      ensures fresh(database.Waiters() - old(database.Waiters()))
      ensures Did(ft, WrittenOf(r), between, old(database.Abstract()), database.Abstract(),
                  old(fifoWrite.bytes), fifoWrite.bytes, status)
    {
      assert awaiting !in database.Waiters() && fifoWrite.bytes + Wire(ft, []) == fifoWrite.bytes;
      match r {
        case Blocked => return Starved;
        case Threw => return Aborted;
        case Got(tuple) =>
          PerformedSoFar(database.Abstract(), Write(tuple), between);
          AddAndReply(ft, tuple, between);
          status := Replied;
      }
    }

    method AddAndReply(ft: FloatText, tuple: Tuple, between: seq<Deed>)
      requires Valid()
      modifies database, database.Waiters(), fifoWrite
      ensures Valid() && fresh(database.Waiters() - old(database.Waiters()))
      ensures Performed(ft, Write(tuple), between, old(database.Abstract()), database.Abstract(),
                        old(fifoWrite.bytes), fifoWrite.bytes, Replied)
    {
      assert awaiting !in database.Waiters();
      var accepted := AddAmong(database, tuple, between, awaiting);
      SendMessage(ft, OperationMessage(OP_RETURN_RESULT, 0), fifoWrite);
    }

    method HandleRead(ft: FloatText, tupleLength: int, between: seq<Deed>) returns (status: Status, ghost h: Heard)
      requires Valid()
      modifies database, database.Waiters(), awaiting, fifoWrite, fifoRead, messageBuffer
      ensures if status == Waiting then Asleep() else Valid()
      ensures fresh(database.Waiters() - old(database.Waiters()) - {awaiting})
      ensures Unserved(messageBuffer.Contents(), fifoRead.bytes)
              <= old(Unserved(messageBuffer.Contents(), fifoRead.bytes))
      ensures h.Operation? ==> !h.cmd.Write?
      ensures Did(ft, h, between, old(database.Abstract()), database.Abstract(), old(fifoWrite.bytes),
                  fifoWrite.bytes, status)
      ensures Heeded(old(Incoming(ft, messageBuffer, fifoRead)), Incoming(ft, messageBuffer, fifoRead), h,
                     HearOperation(OP_LINDA_READ, tupleLength, old(Incoming(ft, messageBuffer, fifoRead)).messages),
                     messageBuffer.maxSize)
    {
      ghost var p, s, out := Incoming(ft, messageBuffer, fifoRead), database.Abstract(), fifoWrite.bytes;
      var r := ReceivePattern(ft, tupleLength, messageBuffer, fifoRead);
      ghost var p1 := Incoming(ft, messageBuffer, fifoRead);
      assert Valid() && database.Abstract() == s && fifoWrite.bytes == out;
      assert database.Waiters() == old(database.Waiters());
      h := OperandOf(OP_LINDA_READ, r);
      HeardPattern(OP_LINDA_READ, tupleLength, p, p1, r, messageBuffer.maxSize);
      status := ServeRead(ft, r, between);
      assert Incoming(ft, messageBuffer, fifoRead) == p1;
    }

    method HandleInput(ft: FloatText, tupleLength: int, between: seq<Deed>) returns (status: Status, ghost h: Heard)
      requires Valid()
      modifies database, database.Waiters(), awaiting, fifoWrite, fifoRead, messageBuffer
      ensures if status == Waiting then Asleep() else Valid()
      ensures fresh(database.Waiters() - old(database.Waiters()) - {awaiting})
      ensures Unserved(messageBuffer.Contents(), fifoRead.bytes)
              <= old(Unserved(messageBuffer.Contents(), fifoRead.bytes))
      ensures h.Operation? ==> !h.cmd.Write?
      ensures Did(ft, h, between, old(database.Abstract()), database.Abstract(), old(fifoWrite.bytes),
                  fifoWrite.bytes, status)
      ensures Heeded(old(Incoming(ft, messageBuffer, fifoRead)), Incoming(ft, messageBuffer, fifoRead), h,
                     HearOperation(OP_LINDA_INPUT, tupleLength, old(Incoming(ft, messageBuffer, fifoRead)).messages),
                     messageBuffer.maxSize)
    {
      ghost var p, s, out := Incoming(ft, messageBuffer, fifoRead), database.Abstract(), fifoWrite.bytes;
      var r := ReceivePattern(ft, tupleLength, messageBuffer, fifoRead);
      ghost var p1 := Incoming(ft, messageBuffer, fifoRead);
      assert Valid() && database.Abstract() == s && fifoWrite.bytes == out;
      assert database.Waiters() == old(database.Waiters());
      h := OperandOf(OP_LINDA_INPUT, r);
      HeardPattern(OP_LINDA_INPUT, tupleLength, p, p1, r, messageBuffer.maxSize);
      status := ServeInput(ft, r, between);
      assert Incoming(ft, messageBuffer, fifoRead) == p1;
    }

    method HandleWrite(ft: FloatText, tupleLength: int, between: seq<Deed>) returns (status: Status, ghost h: Heard)
      requires Valid()
      modifies database, database.Waiters(), awaiting, fifoWrite, fifoRead, messageBuffer
      ensures if status == Waiting then Asleep() else Valid()
      ensures fresh(database.Waiters() - old(database.Waiters()) - {awaiting})
      ensures Unserved(messageBuffer.Contents(), fifoRead.bytes)
              <= old(Unserved(messageBuffer.Contents(), fifoRead.bytes))
      ensures h.Operation? ==> h.cmd.Write? && SentBack(ft, tupleLength, h.cmd.tuple)
      ensures Did(ft, h, between, old(database.Abstract()), database.Abstract(), old(fifoWrite.bytes),
                  fifoWrite.bytes, status)
      ensures Heeded(old(Incoming(ft, messageBuffer, fifoRead)), Incoming(ft, messageBuffer, fifoRead), h,
                     HearOperation(OP_LINDA_WRITE, tupleLength, old(Incoming(ft, messageBuffer, fifoRead)).messages),
                     messageBuffer.maxSize)
    {
      ghost var p, s, out := Incoming(ft, messageBuffer, fifoRead), database.Abstract(), fifoWrite.bytes;
      var r := ReceiveTuple(ft, tupleLength, messageBuffer, fifoRead);
      ghost var p1 := Incoming(ft, messageBuffer, fifoRead);
      assert Valid() && database.Abstract() == s && fifoWrite.bytes == out;
      assert database.Waiters() == old(database.Waiters());
      h := WrittenOf(r);
      HeardTuple(tupleLength, p, p1, r, messageBuffer.maxSize);
      status := ServeWrite(ft, r, between);
      assert Incoming(ft, messageBuffer, fifoRead) == p1;
    }

    method HandleOperationMessage(ft: FloatText, op: Byte, size: UInt32, between: seq<Deed>)
      returns (status: Status, ghost h: Heard)
      requires Valid() && DollarFree(Encode(size, SIZE_32))
      modifies database, database.Waiters(), awaiting, fifoWrite, fifoRead, messageBuffer
      ensures if status == Waiting then Asleep() else Valid()
      ensures fresh(database.Waiters() - old(database.Waiters()) - {awaiting})
      ensures Unserved(messageBuffer.Contents(), fifoRead.bytes)
              <= old(Unserved(messageBuffer.Contents(), fifoRead.bytes))
      ensures HeardReplyable(ft, h)
      ensures Did(ft, h, between, old(database.Abstract()), database.Abstract(), old(fifoWrite.bytes),
                  fifoWrite.bytes, status)
      ensures Heeded(old(Incoming(ft, messageBuffer, fifoRead)), Incoming(ft, messageBuffer, fifoRead), h,
                     HearOperation(op, ToSigned(size), old(Incoming(ft, messageBuffer, fifoRead)).messages),
                     messageBuffer.maxSize)
    {
      if op == OP_LINDA_READ {
        status, h := HandleRead(ft, ToSigned(size), between);
      } else if op == OP_LINDA_WRITE {
        status, h := HandleWrite(ft, ToSigned(size), between);
        if h.Operation? {
          ReceivedIsReplyable(ft, size, h.cmd.tuple);
        }
      } else if op == OP_LINDA_INPUT {
        status, h := HandleInput(ft, ToSigned(size), between);
      } else {
        DidNothing(ft, Nothing, between, database.Abstract(), fifoWrite.bytes);
        status, h := Ignored, Nothing;
      }
    }

    // The switch of mainLoop, given the feed p before its message was received.
    method HandleMessage(ft: FloatText, m: Message, between: seq<Deed>, ghost p: Feed)
      returns (status: Status, ghost h: Heard)
      requires Valid() && Resendable(ft, m)
      requires Delivers(p, Some(m), Incoming(ft, messageBuffer, fifoRead), messageBuffer.maxSize)
      modifies database, database.Waiters(), awaiting, fifoWrite, fifoRead, messageBuffer
      ensures if status == Waiting then Asleep() else Valid()
      ensures fresh(database.Waiters() - old(database.Waiters()) - {awaiting})
      ensures Unserved(messageBuffer.Contents(), fifoRead.bytes)
              <= old(Unserved(messageBuffer.Contents(), fifoRead.bytes))
      ensures HeardReplyable(ft, h)
      ensures Did(ft, h, between, old(database.Abstract()), database.Abstract(), old(fifoWrite.bytes),
                  fifoWrite.bytes, status)
      ensures status != Starved || h == TooFew
      ensures Heeded(p, Incoming(ft, messageBuffer, fifoRead), h, Hear(p.messages), messageBuffer.maxSize)
    {
      ghost var p1 := Incoming(ft, messageBuffer, fifoRead);
      match m {
        case ConnectionMessage(connect) =>
          status, h := if connect then Ignored else Disconnected, Connection(connect);
          DidNothing(ft, h, between, database.Abstract(), fifoWrite.bytes);
          HeardOther(p, m, p1, messageBuffer.maxSize);
        case OperationMessage(op, size) =>
          status, h := HandleOperationMessage(ft, op, size, between);
          HeardOperation(p, m, p1, Incoming(ft, messageBuffer, fifoRead), h, messageBuffer.maxSize);
        case _ =>
          status, h := Ignored, Nothing;
          DidNothing(ft, h, between, database.Abstract(), fifoWrite.bytes);
          HeardOther(p, m, p1, messageBuffer.maxSize);
      }
    }

    // The head of mainLoop: only pipe and buffer change.
    method ReceiveNext(ft: FloatText) returns (received: Option<Message>)
      requires Valid()
      modifies fifoRead, messageBuffer
      ensures Valid() && database.Abstract() == old(database.Abstract()) && fifoWrite.bytes == old(fifoWrite.bytes)
      ensures received.Some? ==> Resendable(ft, received.value)
      ensures Unserved(messageBuffer.Contents(), fifoRead.bytes) + (if received.None? then 0 else 1)
              <= old(Unserved(messageBuffer.Contents(), fifoRead.bytes))
      ensures Delivers(old(Incoming(ft, messageBuffer, fifoRead)), received, Incoming(ft, messageBuffer, fifoRead),
                       messageBuffer.maxSize)
    {
      received := NextMessage(ft, messageBuffer, fifoRead);
    }

    // One iteration of mainLoop, up to a reply or to waitForTuple.
    method HandleNext(ft: FloatText, between: seq<Deed>) returns (status: Status, ghost h: Heard)
      requires Valid()
      modifies database, database.Waiters(), awaiting, fifoWrite, fifoRead, messageBuffer
      ensures if status == Waiting then Asleep() else Valid()
      ensures fresh(database.Waiters() - old(database.Waiters()) - {awaiting})
      ensures HeardReplyable(ft, h)
      ensures Did(ft, h, between, old(database.Abstract()), database.Abstract(), old(fifoWrite.bytes),
                  fifoWrite.bytes, status)
      ensures Heeded(old(Incoming(ft, messageBuffer, fifoRead)), Incoming(ft, messageBuffer, fifoRead), h,
                     Hear(old(Incoming(ft, messageBuffer, fifoRead)).messages), messageBuffer.maxSize)
      ensures Unserved(messageBuffer.Contents(), fifoRead.bytes) + (if status == Starved then 0 else 1)
              <= old(Unserved(messageBuffer.Contents(), fifoRead.bytes))
    {
      ghost var p, s, out := Incoming(ft, messageBuffer, fifoRead), database.Abstract(), fifoWrite.bytes;
      var received := ReceiveNext(ft);
      if received.None? {
        DidNothing(ft, TooFew, between, s, out);
        HeardNone(p, Incoming(ft, messageBuffer, fifoRead), messageBuffer.maxSize);
        status, h := Starved, TooFew;
      } else {
        status, h := HandleMessage(ft, received.value, between, p);
      }
    }

    // In waitForTuple while the others do their deeds: whoever is served resumes and replies.
    method Sleep(ft: FloatText, turn: Turn, ghost s: Space, ghost cmd: Command)
      returns (status: Status, ghost answer: Option<Tuple>)
      requires Asleep() && PerformAround(s, cmd, turn.between) == (database.Abstract(), None)
      modifies database, database.Waiters(), awaiting, fifoWrite
      ensures database.RowsOk() && database.QueueOk() && (status != Waiting ==> Valid())
      ensures fresh(database.Waiters() - old(database.Waiters()))
      ensures (status, database.Abstract(), answer) == Settled(s, Operation(cmd), turn)
      ensures fifoWrite.bytes == old(fifoWrite.bytes) + Wire(ft, ReplyMessages(answer))
    {
      ghost var s1 := database.Abstract();
      SettledAsleep(s, cmd, s1, turn);
      AsleepStaysQueued(s1, |s1.waiting| - 1, turn.after);
      assert fifoWrite.bytes + Wire(ft, []) == fifoWrite.bytes;
      ActAll(database, turn.after, awaiting, Newest(s1));
      if awaiting.locked {
        return Waiting, None;
      }
      answer := Some(awaiting.passedTuple);
      ReplyAfterWait(ft);
      status := Replied;
    }

    // What the others do once the thread has done what h asks for, and the reply if it had to wait.
    method Settle(ft: FloatText, st: Status, turn: Turn, ghost s: Space, ghost h: Heard)
      returns (status: Status, ghost answer: Option<Tuple>)
      requires if st == Waiting then Asleep() else Valid()
      requires SoFar(s, h, turn.between).0 == st && SoFar(s, h, turn.between).1 == database.Abstract()
      modifies database, database.Waiters(), awaiting, fifoWrite
      ensures database.RowsOk() && database.QueueOk() && (status != Waiting ==> Valid())
      ensures fresh(database.Waiters() - old(database.Waiters()))
      ensures (status, database.Abstract(), answer) == Settled(s, h, turn)
      ensures status == Starved <==> st == Starved
      ensures fifoWrite.bytes + Wire(ft, []) ==
              old(fifoWrite.bytes) + Wire(ft, if st == Waiting then ReplyMessages(answer) else [])
    {
      answer := SoFar(s, h, turn.between).2;
      SettledAmong(s, h, turn);
      status := st;
      if st == Waiting {
        status, answer := Sleep(ft, turn, s, h.cmd);
      } else if GoesOn(st) {
        ActAll(database, turn.after, awaiting, Away);
      }
    }

    // One iteration of mainLoop and what the others do meanwhile.
    method Iterate(ft: FloatText, turn: Turn)
      returns (status: Status, ghost h: Heard, ghost answer: Option<Tuple>)
      requires Valid()
      modifies database, database.Waiters(), awaiting, fifoWrite, fifoRead, messageBuffer
      ensures database.RowsOk() && database.QueueOk() && messageBuffer.Valid() && (status != Waiting ==> Valid())
      ensures fresh(database.Waiters() - old(database.Waiters()) - {awaiting})
      ensures (status, database.Abstract(), answer) == Settled(old(database.Abstract()), h, turn)
      ensures fifoWrite.bytes == old(fifoWrite.bytes) + Wire(ft, ReplyMessages(answer))
      ensures HeardReplyable(ft, h)
      ensures Heeded(old(Incoming(ft, messageBuffer, fifoRead)), Incoming(ft, messageBuffer, fifoRead), h,
                     Hear(old(Incoming(ft, messageBuffer, fifoRead)).messages), messageBuffer.maxSize)
      ensures Unserved(messageBuffer.Contents(), fifoRead.bytes) + (if status == Starved then 0 else 1)
              <= old(Unserved(messageBuffer.Contents(), fifoRead.bytes))
    {
      ghost var s, out := database.Abstract(), fifoWrite.bytes;
      var st;
      st, h := HandleNext(ft, turn.between);
      ghost var sent, waiters := fifoWrite.bytes, database.Waiters();
      status, answer := Settle(ft, st, turn, s, h);
      NewOnes(old(database.Waiters()), waiters, database.Waiters(), awaiting);
      SentInAll(ft, s, h, turn, out, sent, fifoWrite.bytes);
    }

    // The loop of mainLoop, up to where the code leaves it or blocks for good. The others act between
    // the critical sections of a command, after every iteration, and while the thread waits.
    method Loop(ft: FloatText, others: seq<Turn>, ghost going: Stage -> bool)
      returns (status: Status, ghost g: Stage)
      requires Valid() && LoopCarriesOn(ft, going, messageBuffer.maxSize)
      requires going(Stage(Ignored, Incoming(ft, messageBuffer, fifoRead), database.Abstract(), [], others))
      modifies database, database.Waiters(), awaiting, fifoWrite, fifoRead, messageBuffer
      ensures database.RowsOk() && database.QueueOk() && messageBuffer.Valid() && !GoesOn(status)
      ensures going(g) && g.status == status && g.feed == Incoming(ft, messageBuffer, fifoRead)
      ensures g.space == database.Abstract() && fifoWrite.bytes == old(fifoWrite.bytes) + Wire(ft, g.sent)
    {
      ghost var out := fifoWrite.bytes;
      var later := others;
      status := Ignored;
      g := Stage(Ignored, Incoming(ft, messageBuffer, fifoRead), database.Abstract(), [], others);
      assert out + Wire(ft, []) == out;
      while status == Replied || status == Ignored
        invariant database.RowsOk() && database.QueueOk() && messageBuffer.Valid() && (status != Waiting ==> Valid())
        invariant fresh(database.Waiters() - old(database.Waiters()) - {awaiting})
        invariant going(g) && g.status == status && g.later == later
        invariant g.feed == Incoming(ft, messageBuffer, fifoRead) && g.space == database.Abstract()
        invariant fifoWrite.bytes == out + Wire(ft, g.sent)
        decreases Unserved(messageBuffer.Contents(), fifoRead.bytes), GoesOn(status)
      {
        ghost var h, answer;
        ghost var waiters := database.Waiters();
        status, h, answer := Iterate(ft, Next(later));
        NewOnes(old(database.Waiters()), waiters, database.Waiters(), awaiting);
        ghost var q1 := Incoming(ft, messageBuffer, fifoRead);
        assert Heeds(ft, g.feed, q1, h, messageBuffer.maxSize);
        WireAppend(ft, g.sent, ReplyMessages(answer));
        Assoc(out, Wire(ft, g.sent), Wire(ft, ReplyMessages(answer)));
        g := After(g, h, q1);
        later := Later(later);
      }
    }

    // mainLoop: whatever the client sends and the others do, the replies and the stored tuples are
    // such as can be sent.
    method MainLoop(ft: FloatText, others: seq<Turn>) returns (status: Status, ghost sent: seq<Message>)
      requires Valid()
      modifies database, database.Waiters(), awaiting, fifoWrite, fifoRead, messageBuffer
      ensures database.RowsOk() && database.QueueOk() && messageBuffer.Valid() && !GoesOn(status)
      ensures fifoWrite.bytes == old(fifoWrite.bytes) + Wire(ft, sent)
      ensures AllReplyable(ft, old(database.contents)) && OthersOk(ft, others) ==>
        AllReplyable(ft, database.contents) && AllClean(ft, sent)
      ensures LoopResult(old(Incoming(ft, messageBuffer, fifoRead)), old(database.Abstract()), others,
                         messageBuffer.maxSize, status, Incoming(ft, messageBuffer, fifoRead), database.Abstract(),
                         sent)
    {
      ghost var p, s0 := Incoming(ft, messageBuffer, fifoRead), database.Abstract();
      ServingCarriesOn(ft, p, s0, others, messageBuffer.maxSize);
      ghost var g;
      status, g := Loop(ft, others, Staging(ft, p, s0, others, messageBuffer.maxSize));
      sent := g.sent;
      LoopEnd(p, s0, others, messageBuffer.maxSize, status, g.feed, g.space, sent, g.later);
    }
  }
}
