/** What a client sends is what its service thread hears, and what the thread answers is what the
    client hears. */
module Delivery {
  import opened Types
  import opened Numbers
  import opened PatternText
  import opened Seqs
  import opened TupleSpace
  import opened Framing
  import opened Codec
  import opened Terminator
  import opened Link
  import opened Receiving
  import opened Others
  import opened Service

  // Client::handleCommand
  function CommandMessages(cmd: Command): seq<Message> {
    match cmd
    case Write(t) => TupleMessages(OP_LINDA_WRITE, t)
    case Read(p) => RequestMessages(OP_LINDA_READ, p)
    case Input(p) => RequestMessages(OP_LINDA_INPUT, p)
  }

  function Items(cmd: Command): nat {
    match cmd
    case Write(t) => |t|
    case Read(p) => |p|
    case Input(p) => |p|
  }

  // The number of items is received as an int.
  predicate Sendable(ft: FloatText, cmd: Command) {
    Items(cmd) < 0x8000_0000 && AllClean(ft, CommandMessages(cmd))
  }

  // The command is heard, a request with the patterns rebuilt from their texts.
  predicate Audible(ft: FloatText, cmd: Command) {
    Items(cmd) < 0x8000_0000 && AllReach(ft, CommandMessages(cmd))
  }

  function RebuiltPattern(ft: FloatText, p: Pattern): Pattern {
    if Rebuilt(ft, p).Ok? then Rebuilt(ft, p).value else p
  }

  function RebuiltPatterns(ft: FloatText, ps: seq<Pattern>): (qs: seq<Pattern>)
    ensures |qs| == |ps| && forall i :: 0 <= i < |ps| ==> qs[i] == RebuiltPattern(ft, ps[i])
  {
    if ps == [] then [] else [RebuiltPattern(ft, ps[0])] + RebuiltPatterns(ft, ps[1..])
  }

  function HeardAs(ft: FloatText, cmd: Command): Command {
    match cmd
    case Write(_) => cmd
    case Read(p) => Read(RebuiltPatterns(ft, p))
    case Input(p) => Input(RebuiltPatterns(ft, p))
  }

  lemma CommandReaches(ft: FloatText, cmd: Command)
    ensures AllReachedAs(ft, CommandMessages(cmd)) == CommandMessages(HeardAs(ft, cmd))
    ensures Items(HeardAs(ft, cmd)) == Items(cmd)
  {
  }

  lemma PatternsSurvive(ft: FloatText, op: Byte, p: seq<Pattern>)
    requires AllClean(ft, RequestMessages(op, p))
    ensures RebuiltPatterns(ft, p) == p
  {
    var ms := RequestMessages(op, p);
    forall i | 0 <= i < |p| ensures RebuiltPattern(ft, p[i]) == p[i] {
      assert ms[i + 1] == PatternMessage(p[i]) && Clean(ft, ms[i + 1]);
    }
  }

  /** A command whose messages survive is heard as it is. */
  lemma SendableIsAudible(ft: FloatText, cmd: Command)
    requires Sendable(ft, cmd)
    ensures Audible(ft, cmd) && HeardAs(ft, cmd) == cmd
  {
    CleanReaches(ft, CommandMessages(cmd));
    match cmd
    case Write(_) =>
    case Read(p) => PatternsSurvive(ft, OP_LINDA_READ, p);
    case Input(p) => PatternsSurvive(ft, OP_LINDA_INPUT, p);
  }

  // ---- From messages to bytes and back -----------------------------------------------

  function AllSome(ms: seq<Message>): (r: seq<Option<Message>>)
    ensures |r| == |ms|
  {
    if ms == [] then [] else [Some(ms[0])] + AllSome(ms[1..])
  }

  lemma {:induction false} PlainFrames(ft: FloatText, ms: seq<Message>)
    requires AllReach(ft, ms)
    ensures forall f :: f in Frames(ft, ms) ==> DollarFree(f)
  {
    forall i | 0 <= i < |ms| ensures DollarFree(Frames(ft, ms)[i]) {
      FrameAt(ft, ms, i);
      assert Reaches(ft, ms[i]);
    }
  }

  lemma ReachesDecoded(ft: FloatText, m: Message)
    requires Reaches(ft, m)
    ensures Decoded(ft, Serialize(ft, m)) == Some(ReachedAs(ft, m))
  {
    MessageRoundTrip(ft, m, []);
    assert Serialize(ft, m) + [] == Serialize(ft, m);
  }

  lemma {:induction false} FramesAreDecoded(ft: FloatText, ms: seq<Message>)
    requires AllReach(ft, ms)
    ensures AllDecoded(ft, Frames(ft, ms)) == AllSome(AllReachedAs(ft, ms))
  {
    if ms != [] {
      assert Reaches(ft, ms[0]) && AllReach(ft, ms[1..]);
      ReachesDecoded(ft, ms[0]);
      FramesAreDecoded(ft, ms[1..]);
      assert Frames(ft, ms)[1..] == Frames(ft, ms[1..]);
      assert AllReachedAs(ft, ms)[1..] == AllReachedAs(ft, ms[1..]);
    }
  }

  /** Messages without the terminator come out of the byte stream as the frames they were sent in, and
      each frame holds the message it was sent for, a pattern as it is rebuilt. */
  lemma WireIsFed(ft: FloatText, ms: seq<Message>)
    requires AllReach(ft, ms)
    ensures Pending(NO_BYTES, Wire(ft, ms)) == Stream(Frames(ft, ms), [])
    ensures FeedOf(ft, Pending(NO_BYTES, Wire(ft, ms))) == Feed(AllSome(AllReachedAs(ft, ms)), [])
  {
    PlainFrames(ft, ms);
    FramesAreDecoded(ft, ms);
    FramingIsExact(Frames(ft, ms));
    assert [] + Frames(ft, ms) == Frames(ft, ms);
  }

  lemma {:induction false} AllSomeIsRead(ms: seq<Message>, rest: seq<Option<Message>>)
    ensures AllReadTo(AllSome(ms) + rest, rest)
  {
    var all := AllSome(ms) + rest;
    DropBehind(AllSome(ms), rest);
    forall i | 0 <= i < |ms| ensures all[i].Some? {
      SomeAt(ms, i);
    }
  }

  lemma {:induction false} SomeAt(ms: seq<Message>, i: nat)
    requires i < |ms|
    ensures AllSome(ms)[i] == Some(ms[i])
  {
    if i > 0 {
      SomeAt(ms[1..], i - 1);
    }
  }

  lemma FirstOf(m: Message, ms: seq<Message>, rest: seq<Option<Message>>)
    ensures NextRead(AllSome([m] + ms) + rest) == (Some(m), AllSome(ms) + rest)
  {
    assert ([m] + ms)[1..] == ms;
    ConsBefore(Some(m), AllSome(ms), rest);
  }

  lemma {:induction false} AllSomeAppend(a: seq<Message>, b: seq<Message>)
    ensures AllSome(a + b) == AllSome(a) + AllSome(b)
  {
    if a == [] {
      assert a + b == b;
    } else {
      assert (a + b)[0] == a[0] && (a + b)[1..] == a[1..] + b;
      AllSomeAppend(a[1..], b);
      Assoc([Some(a[0])], AllSome(a[1..]), AllSome(b));
    }
  }

  // ---- Commands ----------------------------------------------------------------------

  // The messages hold these items.
  ghost predicate Hold<T>(ms: seq<Message>, items: seq<T>, pick: Message -> Option<T>) {
    |items| == |ms| && forall i :: 0 <= i < |ms| ==> pick(ms[i]) == Some(items[i])
  }

  lemma {:induction false} ItemsAreReceived<T>(ms: seq<Message>, items: seq<T>, pick: Message -> Option<T>,
                                               rest: seq<Option<Message>>)
    requires Hold(ms, items, pick)
    ensures Receive(AllSome(ms) + rest, |ms|, pick) == (Got(items), rest)
    decreases |ms|
  {
    if ms == [] {
      assert AllSome(ms) + rest == rest;
    } else {
      assert ms == [ms[0]] + ms[1..] && items == [items[0]] + items[1..];
      FirstOf(ms[0], ms[1..], rest);
      ItemsAreReceived(ms[1..], items[1..], pick, rest);
      assert pick(ms[0]) == Some(items[0]);
    }
  }

  lemma TupleIsReceived(op: Byte, t: Tuple, rest: seq<Option<Message>>)
    requires |t| < 0x8000_0000
    ensures var (m, left) := NextRead(AllSome(TupleMessages(op, t)) + rest);
      m == Some(OperationMessage(op, Low32(|t|))) && Receive(left, ToSigned(Low32(|t|)), ElemOf) == (Got(t), rest)
  {
    FirstOf(OperationMessage(op, Low32(|t|)), ElemMessages(t), rest);
    ItemsAreReceived(ElemMessages(t), t, ElemOf, rest);
  }

  lemma PatternIsReceived(op: Byte, p: seq<Pattern>, rest: seq<Option<Message>>)
    requires |p| < 0x8000_0000
    ensures var (m, left) := NextRead(AllSome(RequestMessages(op, p)) + rest);
      m == Some(OperationMessage(op, Low32(|p|))) && Receive(left, ToSigned(Low32(|p|)), PatternOf) == (Got(p), rest)
  {
    FirstOf(OperationMessage(op, Low32(|p|)), PatternMessages(p), rest);
    ItemsAreReceived(PatternMessages(p), p, PatternOf, rest);
  }

  /** The service thread hears exactly the command that was sent, and nothing of the next one. */
  lemma CommandIsHeard(cmd: Command, rest: seq<Option<Message>>)
    requires Items(cmd) < 0x8000_0000
    ensures Hear(AllSome(CommandMessages(cmd)) + rest) == (Operation(cmd), rest)
  {
    match cmd
    case Write(t) => TupleIsReceived(OP_LINDA_WRITE, t, rest);
    case Read(p) => PatternIsReceived(OP_LINDA_READ, p, rest);
    case Input(p) => PatternIsReceived(OP_LINDA_INPUT, p, rest);
  }

  lemma ReachedAppend(ft: FloatText, a: seq<Message>, b: seq<Message>)
    requires AllReach(ft, a) && AllReach(ft, b)
    ensures AllReach(ft, a + b) && AllReachedAs(ft, a + b) == AllReachedAs(ft, a) + AllReachedAs(ft, b)
  {
  }

  /** A command without a terminator in its messages is heard with its patterns rebuilt from their
      texts, and nothing of the next one. */
  lemma RebuiltCommandIsHeard(ft: FloatText, cmd: Command, more: seq<Message>)
    requires Audible(ft, cmd) && AllReach(ft, more)
    ensures var p := FeedOf(ft, Pending(NO_BYTES, Wire(ft, CommandMessages(cmd) + more)));
      Hear(p.messages) == (Operation(HeardAs(ft, cmd)), AllSome(AllReachedAs(ft, more)))
  {
    var ms, heard, rest := CommandMessages(cmd), HeardAs(ft, cmd), AllReachedAs(ft, more);
    CommandReaches(ft, cmd);
    ReachedAppend(ft, ms, more);
    WireIsFed(ft, ms + more);
    AllSomeAppend(CommandMessages(heard), rest);
    CommandIsHeard(heard, AllSome(rest));
  }

  // ---- Replies -----------------------------------------------------------------------

  // What the request/reply part of Client::interact makes of the next messages.
  datatype Reply =
    | Success
    | Result(tuple: Tuple)
    | ServerError
    | NotAReply
    // In read(2).
    | NoReply
    // receiveTuple threw.
    | Failure
    // The text was not understood; nothing was sent.
    | Rejected(error: Error)

  function HearReply(ms: seq<Option<Message>>, cmd: Command): (r: (Reply, seq<Option<Message>>))
    ensures |r.1| <= |ms| && (ms != [] ==> |r.1| < |ms|)
  {
    var (m, rest) := NextRead(ms);
    match m
    case None => (NoReply, [])
    case Some(OperationMessage(op, size)) => HearResult(op, size, rest, cmd)
    case Some(_) => (NotAReply, rest)
  }

  function HearResult(op: Byte, size: UInt32, ms: seq<Option<Message>>, cmd: Command)
    : (r: (Reply, seq<Option<Message>>))
    ensures |r.1| <= |ms|
  {
    if op != OP_RETURN_RESULT then (ServerError, ms)
    else if cmd.Write? && size == 0 then (Success, ms)
    else
      var (r, left) := Receive(ms, ToSigned(size), ElemOf);
      (ReplyOf(r), left)
  }

  function ReplyOf(r: Reception<TupleElem>): Reply {
    match r
    case Got(tuple) => Result(tuple)
    case Blocked => NoReply
    case Threw => Failure
  }

  // What the user is shown for the answer to a command.
  function ReplyTo(cmd: Command, answer: Tuple): Reply {
    if cmd.Write? && answer == [] then Success else Result(answer)
  }

  /** The client hears exactly the answer that was sent. */
  lemma AnswerIsHeard(cmd: Command, x: Tuple, rest: seq<Option<Message>>)
    requires |x| < 0x8000_0000
    ensures HearReply(AllSome(TupleMessages(OP_RETURN_RESULT, x)) + rest, cmd) == (ReplyTo(cmd, x), rest)
  {
    TupleIsReceived(OP_RETURN_RESULT, x, rest);
    if cmd.Write? && x == [] {
      FirstOf(OperationMessage(OP_RETURN_RESULT, 0), [], rest);
      assert AllSome([]) + rest == rest;
      assert TupleMessages(OP_RETURN_RESULT, x) == [OperationMessage(OP_RETURN_RESULT, 0)] + [];
    }
  }

  /** What is no reply: nothing comes; a message of another kind; another operation than that of a reply.
      To a write an empty reply is success. */
  lemma StrangeReplies(m: Message, rest: seq<Option<Message>>, cmd: Command)
    ensures HearReply([], cmd) == (NoReply, [])
    ensures var heard := HearReply([Some(m)] + rest, cmd);
      && (!m.OperationMessage? ==> heard == (NotAReply, rest))
      && (m.OperationMessage? && m.opType as int != 16 ==> heard == (ServerError, rest))
      && (m == OperationMessage(16 as char, 0) ==> heard == (if cmd.Write? then Success else Result([]), rest))
  {
    assert ([Some(m)] + rest)[1..] == rest;
  }

  // ---- Many commands in one go -------------------------------------------------------

  function SessionMessages(cmds: seq<Command>): seq<Message> {
    if cmds == [] then [] else CommandMessages(cmds[0]) + SessionMessages(cmds[1..])
  }

  function AllReplies(answers: seq<Tuple>): seq<Message> {
    if answers == [] then [] else TupleMessages(OP_RETURN_RESULT, answers[0]) + AllReplies(answers[1..])
  }

  predicate AllCounted(cmds: seq<Command>) {
    forall i :: 0 <= i < |cmds| ==> Items(cmds[i]) < 0x8000_0000
  }

  // The commands behind the one that waits in vain.
  function Unheard(s: Space, cmds: seq<Command>, others: seq<Turn>): seq<Command> {
    var n := |PerformAll(s, cmds, others).1|;
    if n < |cmds| then cmds[n + 1..] else []
  }

  // One command in front of others.
  lemma FirstIsServed(cmd: Command, rest: seq<Option<Message>>, s: Space, others: seq<Turn>,
                      s1: Space, answer: Option<Tuple>)
    requires Items(cmd) < 0x8000_0000 && PerformAmong(s, cmd, Next(others)) == (s1, answer)
    ensures var all := Serve(AllSome(CommandMessages(cmd)) + rest, s, others);
      && (answer.None? ==> all == Progress(Waiting, s1, [], rest))
      && (answer.Some? ==>
            var r := Serve(rest, s1, Later(others));
            all == r.(replies := TupleMessages(OP_RETURN_RESULT, answer.value) + r.replies))
  {
    CommandIsHeard(cmd, rest);
    ServeNext(AllSome(CommandMessages(cmd)) + rest, s, others);
  }

  /** Commands sent in one go are heard one after the other and answered in order, those that have to
      wait when they are woken; nothing behind the first that waits in vain is touched. */
  lemma {:induction false} CommandsAreServedInOrder(cmds: seq<Command>, s: Space, others: seq<Turn>)
    requires AllCounted(cmds)
    ensures |PerformAll(s, cmds, others).1| <= |cmds|
    ensures var (s1, answers) := PerformAll(s, cmds, others);
      Serve(AllSome(SessionMessages(cmds)), s, others) ==
      Progress(if |answers| == |cmds| then Starved else Waiting, s1, AllReplies(answers),
               AllSome(SessionMessages(Unheard(s, cmds, others))))
    decreases |cmds|
  {
    if cmds != [] {
      var (s1, answer) := PerformAmong(s, cmds[0], Next(others));
      AllSomeAppend(CommandMessages(cmds[0]), SessionMessages(cmds[1..]));
      FirstIsServed(cmds[0], AllSome(SessionMessages(cmds[1..])), s, others, s1, answer);
      PerformedFirst(s, cmds, others);
      if answer.Some? {
        CommandsAreServedInOrder(cmds[1..], s1, Later(others));
      }
    }
  }

  lemma PerformedFirst(s: Space, cmds: seq<Command>, others: seq<Turn>)
    requires cmds != []
    ensures var (s1, answer) := PerformAmong(s, cmds[0], Next(others));
      if answer.None? then PerformAll(s, cmds, others) == (s1, []) && Unheard(s, cmds, others) == cmds[1..]
      else
        var (s2, more) := PerformAll(s1, cmds[1..], Later(others));
        && PerformAll(s, cmds, others) == (s2, [answer.value] + more)
        && AllReplies([answer.value] + more) == TupleMessages(OP_RETURN_RESULT, answer.value) + AllReplies(more)
        && (|more| <= |cmds[1..]| ==> Unheard(s, cmds, others) == Unheard(s1, cmds[1..], Later(others)))
  {
    var (s1, answer) := PerformAmong(s, cmds[0], Next(others));
    if answer.Some? {
      var more := PerformAll(s1, cmds[1..], Later(others)).1;
      assert ([answer.value] + more)[0] == answer.value && ([answer.value] + more)[1..] == more;
      if |more| < |cmds[1..]| {
        assert cmds[1..][|more| + 1..] == cmds[|more| + 2..];
      }
    }
  }
}
