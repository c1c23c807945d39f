/** A client and its service thread (client.cpp, service_thread.cpp), one request after the other,
    while other threads work on the same database. */
module Session {
  import opened Types
  import opened Numbers
  import opened PatternText
  import opened Seqs
  import opened TupleSpace
  import opened Framing
  import opened Codec
  import opened Terminator
  import opened Link
  import opened Receiving
  import opened Others
  import opened Replies
  import opened Service
  import opened Delivery
  import opened Parser
  import Layout
  import Matching = Patterns
  import Show

  predicate AllElems(items: seq<Item>) {
    forall i :: 0 <= i < |items| ==> items[i].ElemItem?
  }

  predicate AllPatterns(items: seq<Item>) {
    forall i :: 0 <= i < |items| ==> items[i].PatternItem?
  }

  function ElemsOf(items: seq<Item>): Tuple
    requires AllElems(items)
  {
    seq(|items|, i requires 0 <= i < |items| => items[i].elem)
  }

  function PatternsOf(items: seq<Item>): seq<Pattern>
    requires AllPatterns(items)
  {
    seq(|items|, i requires 0 <= i < |items| => items[i].pattern)
  }

  // The command that a parsed line stands for.
  function CommandOf(line: Line): Option<Command> {
    if line.op == OP_LINDA_WRITE && AllElems(line.items) then Some(Write(ElemsOf(line.items)))
    else if line.op == OP_LINDA_READ && AllPatterns(line.items) then Some(Read(PatternsOf(line.items)))
    else if line.op == OP_LINDA_INPUT && AllPatterns(line.items) then Some(Input(PatternsOf(line.items)))
    else None
  }

  /** A line is the command of its operation with its items in their order, if they are of the right kind
      all, and else none. */
  lemma CommandHoldsItems(line: Line)
    ensures match CommandOf(line)
      case Some(Write(t)) =>
        line.op as int == 32 && |t| == |line.items| && forall i :: 0 <= i < |t| ==> line.items[i] == ElemItem(t[i])
      case Some(Read(p)) =>
        line.op as int == 128 && |p| == |line.items| && forall i :: 0 <= i < |p| ==> line.items[i] == PatternItem(p[i])
      case Some(Input(p)) =>
        line.op as int == 64 && |p| == |line.items| && forall i :: 0 <= i < |p| ==> line.items[i] == PatternItem(p[i])
      case None =>
        line.op as int == 32 || line.op as int == 64 || line.op as int == 128 ==>
          exists i :: 0 <= i < |line.items| && (line.items[i].ElemItem? <==> line.op as int != 32)
  {
  }

  // The client took the reply from the feed p and left q. Frames that cannot be read can make it block
  // early; if it does not, or all frames it takes can be read, it heard what the frames say.
  ghost predicate Told(p: Feed, q: Feed, reply: Reply, heard: (Reply, seq<Option<Message>>), maxSize: nat) {
    Clear(p.messages, heard.1, maxSize) ==>
      && q.partial == p.partial
      && (reply != NoReply || AllReadTo(p.messages, heard.1) ==> heard == (reply, q.messages))
  }

  lemma ResultIsSuffix(op: Byte, size: UInt32, ms: seq<Option<Message>>, cmd: Command)
    ensures Suffix(HearResult(op, size, ms, cmd).1, ms)
  {
    LeftIsSuffix(ms, ToSigned(size), ElemOf);
  }

  lemma ToldNone(p: Feed, q: Feed, cmd: Command, maxSize: nat)
    requires Delivers(p, None, q, maxSize)
    ensures Told(p, q, NoReply, HearReply(p.messages, cmd), maxSize)
  {
    if Clear(p.messages, HearReply(p.messages, cmd).1, maxSize) {
      assert Safe(p.messages, maxSize);
    }
  }

  lemma ToldSome(p: Feed, m: Message, p1: Feed, cmd: Command, maxSize: nat)
    requires Delivers(p, Some(m), p1, maxSize) && Clear(p.messages, HearReply(p.messages, cmd).1, maxSize)
    ensures NextRead(p.messages) == (Some(m), p1.messages) && p1.partial == p.partial
    ensures Clear(p1.messages, HearReply(p.messages, cmd).1, maxSize)
    ensures AllReadTo(p.messages, HearReply(p.messages, cmd).1) ==> AllReadTo(p1.messages, HearReply(p.messages, cmd).1)
  {
    var left := HearReply(p.messages, cmd).1;
    assert Safe(p.messages, maxSize);
    NextReadIsSuffix(p.messages);
    if m.OperationMessage? {
      ResultIsSuffix(m.opType, m.tupleSize, p1.messages, cmd);
    }
    if AllReadTo(p.messages, left) {
      StillReadTo(p.messages, p1.messages, left);
    }
  }

  lemma ToldResult(p: Feed, m: Message, p1: Feed, q: Feed, reply: Reply, cmd: Command, maxSize: nat)
    requires Delivers(p, Some(m), p1, maxSize)
    requires if m.OperationMessage?
             then Told(p1, q, reply, HearResult(m.opType, m.tupleSize, p1.messages, cmd), maxSize)
             else q == p1 && reply == NotAReply
    ensures Told(p, q, reply, HearReply(p.messages, cmd), maxSize)
  {
    if Clear(p.messages, HearReply(p.messages, cmd).1, maxSize) {
      ToldSome(p, m, p1, cmd, maxSize);
    }
  }

  class Client {
    const fifoRead: Pipe
    const fifoWrite: Pipe
    const messageBuffer: MessageBuffer

    constructor (fifoRead: Pipe, fifoWrite: Pipe)
      ensures this.fifoRead == fifoRead && this.fifoWrite == fifoWrite && fresh(messageBuffer) && messageBuffer.Valid()
      ensures messageBuffer.maxSize == 100 && messageBuffer.Contents() == NO_BYTES
    {
      this.fifoRead, this.fifoWrite := fifoRead, fifoWrite;
      messageBuffer := new MessageBuffer(BUFFER_SIZE);
    }

    // Throws bad_variant_access, before anything is sent, if an item is of the wrong kind.
    method HandleCommand(ft: FloatText, line: Line) returns (sent: bool)
      modifies fifoWrite
      ensures sent == (if line.op == OP_LINDA_WRITE then AllElems(line.items) else AllPatterns(line.items))
      ensures !sent ==> fifoWrite.bytes == old(fifoWrite.bytes)
      ensures CommandOf(line).Some? ==>
        sent && fifoWrite.bytes == old(fifoWrite.bytes) + Wire(ft, CommandMessages(CommandOf(line).value))
    {
      if line.op == OP_LINDA_WRITE {
        var tuple: Tuple := [];
        for i := 0 to |line.items|
          invariant AllElems(line.items[..i]) && tuple == ElemsOf(line.items[..i])
        {
          assert line.items[..i + 1] == line.items[..i] + [line.items[i]];
          if !line.items[i].ElemItem? {
            return false;
          }
          tuple := tuple + [line.items[i].elem];
        }
        assert line.items[..|line.items|] == line.items;
        SendTuple(ft, line.op, tuple, fifoWrite);
      } else {
        var pattern: seq<Pattern> := [];
        for i := 0 to |line.items|
          invariant AllPatterns(line.items[..i]) && pattern == PatternsOf(line.items[..i])
        {
          assert line.items[..i + 1] == line.items[..i] + [line.items[i]];
          if !line.items[i].PatternItem? {
            return false;
          }
          pattern := pattern + [line.items[i].pattern];
        }
        assert line.items[..|line.items|] == line.items;
        SendPattern(ft, line.op, pattern, fifoWrite);
      }
      sent := true;
    }

    // What interact sends on `exit`.
    method Disconnect(ft: FloatText)
      modifies fifoWrite
      ensures fifoWrite.bytes == old(fifoWrite.bytes) + Wire(ft, [ConnectionMessage(false)])
    {
      SendMessage(ft, ConnectionMessage(false), fifoWrite);
    }

    // The part of interact that follows handleCommand.
    method ReceiveReply(ft: FloatText, cmd: Command) returns (reply: Reply)
      requires messageBuffer.Valid() && messageBuffer.maxSize > 0
      modifies fifoRead, messageBuffer
      ensures messageBuffer.Valid()
      ensures Told(old(Incoming(ft, messageBuffer, fifoRead)), Incoming(ft, messageBuffer, fifoRead), reply,
                   HearReply(old(Incoming(ft, messageBuffer, fifoRead)).messages, cmd), messageBuffer.maxSize)
    {
      ghost var p := Incoming(ft, messageBuffer, fifoRead);
      var received := NextMessage(ft, messageBuffer, fifoRead);
      ghost var p1 := Incoming(ft, messageBuffer, fifoRead);
      assert Delivers(p, received, p1, messageBuffer.maxSize);
      if received.None? {
        ToldNone(p, p1, cmd, messageBuffer.maxSize);
        return NoReply;
      }
      match received.value {
        case OperationMessage(op, size) =>
          reply := ReceiveResult(ft, op, size, cmd);
        case _ =>
          reply := NotAReply;
      }
      ToldResult(p, received.value, p1, Incoming(ft, messageBuffer, fifoRead), reply, cmd, messageBuffer.maxSize);
    }

    method ReceiveResult(ft: FloatText, op: Byte, size: UInt32, cmd: Command) returns (reply: Reply)
      requires messageBuffer.Valid() && messageBuffer.maxSize > 0
      modifies fifoRead, messageBuffer
      ensures messageBuffer.Valid()
      ensures Told(old(Incoming(ft, messageBuffer, fifoRead)), Incoming(ft, messageBuffer, fifoRead), reply,
                   HearResult(op, size, old(Incoming(ft, messageBuffer, fifoRead)).messages, cmd),
                   messageBuffer.maxSize)
    {
      if op != OP_RETURN_RESULT {
        return ServerError;
      }
      if cmd.Write? && size == 0 {
        return Success;
      }
      var r := ReceiveTuple(ft, ToSigned(size), messageBuffer, fifoRead);
      reply := ReplyOf(r);
    }
  }

  // Nothing is left in the pipes and buffers.
  ghost predicate AtRest(client: Client, thread: ServiceThread)
    reads client.fifoRead, client.fifoWrite, client.messageBuffer, thread.messageBuffer
  {
    && client.fifoRead.bytes == [] && client.fifoWrite.bytes == []
    && client.messageBuffer.Contents() == NO_BYTES && thread.messageBuffer.Contents() == NO_BYTES
  }

  ghost predicate Connected(client: Client, thread: ServiceThread)
    reads client.messageBuffer
  {
    && client.fifoWrite == thread.fifoRead && client.fifoRead == thread.fifoWrite
    && client.fifoRead != client.fifoWrite && client.messageBuffer != thread.messageBuffer
    && client.messageBuffer.maxSize > 0 && client.messageBuffer.Valid()
  }

  /** If no frame is to come and none is begun, the buffer and the pipe are empty. */
  lemma NothingPending(ft: FloatText, b: Buffer, s: Bytes)
    requires FeedOf(ft, Pending(b, s)) == Feed([], [])
    ensures b == NO_BYTES && s == []
  {
    assert Pending(b, s).frames == [];
    SplitLosesNothing(b.partial, s);
    assert Join(Split(b.partial, s).frames) + [] == b.partial + s;
  }

  // ---- One round ---------------------------------------------------------------------

  // The messages of a command have all been heard.
  lemma HeardInFull(ms: seq<Message>, q: Feed, h: Heard, cmd: Command, maxSize: nat)
    requires Items(cmd) < 0x8000_0000 && ms == CommandMessages(cmd)
    requires Heeded(Feed(AllSome(ms), []), q, h, Hear(AllSome(ms)), maxSize)
    ensures h == Operation(cmd) && q == Feed([], [])
  {
    CommandIsHeard(cmd, []);
    AllSomeIsRead(ms, []);
    assert AllSome(ms) + [] == AllSome(ms);
  }

  lemma ToldInFull(ms: seq<Message>, q: Feed, reply: Reply, cmd: Command, x: Tuple, maxSize: nat)
    requires |x| < 0x8000_0000 && ms == TupleMessages(OP_RETURN_RESULT, x)
    requires Told(Feed(AllSome(ms), []), q, reply, HearReply(AllSome(ms), cmd), maxSize)
    ensures reply == ReplyTo(cmd, x) && q == Feed([], [])
  {
    AnswerIsHeard(cmd, x, []);
    AllSomeIsRead(ms, []);
    assert AllSome(ms) + [] == AllSome(ms);
  }

  // The server's half: the thread hears the command and carries it out, waiting if need be.
  method ServeRound(ft: FloatText, thread: ServiceThread, turn: Turn, ghost cmd: Command)
    returns (status: Status, ghost answer: Option<Tuple>)
    requires thread.Valid() && Audible(ft, cmd)
    requires thread.messageBuffer.Contents() == NO_BYTES && thread.fifoRead.bytes == Wire(ft, CommandMessages(cmd))
    requires thread.fifoWrite.bytes == []
    modifies thread.database, thread.database.Waiters(), thread.awaiting
    modifies thread.fifoRead, thread.fifoWrite, thread.messageBuffer
    ensures thread.messageBuffer.Contents() == NO_BYTES && thread.fifoRead.bytes == []
    ensures thread.database.RowsOk() && thread.database.QueueOk() && thread.messageBuffer.Valid()
    ensures fresh(thread.database.Waiters() - old(thread.database.Waiters()) - {thread.awaiting})
    ensures (thread.database.Abstract(), answer) ==
            PerformAmong(old(thread.database.Abstract()), HeardAs(ft, cmd), turn)
    ensures status == (if answer.Some? then Replied else Waiting) && (status == Replied ==> thread.Valid())
    ensures thread.fifoWrite.bytes == Wire(ft, ReplyMessages(answer))
  {
    ghost var ms := CommandMessages(cmd);
    CommandReaches(ft, cmd);
    WireIsFed(ft, ms);
    ghost var h;
    status, h, answer := thread.Iterate(ft, turn);
    HeardInFull(CommandMessages(HeardAs(ft, cmd)), Incoming(ft, thread.messageBuffer, thread.fifoRead), h,
                HeardAs(ft, cmd), thread.messageBuffer.maxSize);
    NothingPending(ft, thread.messageBuffer.Contents(), thread.fifoRead.bytes);
    assert [] + Wire(ft, ReplyMessages(answer)) == Wire(ft, ReplyMessages(answer));
  }

  // The client's half: it hears the answer.
  method HearRound(ft: FloatText, client: Client, cmd: Command, ghost answer: Tuple) returns (reply: Reply)
    requires client.messageBuffer.Valid() && client.messageBuffer.maxSize > 0 && Replyable(ft, answer)
    requires client.messageBuffer.Contents() == NO_BYTES
    requires client.fifoRead.bytes == Wire(ft, TupleMessages(OP_RETURN_RESULT, answer))
    modifies client.fifoRead, client.messageBuffer
    ensures client.messageBuffer.Valid()
    ensures client.messageBuffer.Contents() == NO_BYTES && client.fifoRead.bytes == []
    ensures reply == ReplyTo(cmd, answer)
  {
    ghost var ms := TupleMessages(OP_RETURN_RESULT, answer);
    CleanReaches(ft, ms);
    WireIsFed(ft, ms);
    reply := client.ReceiveReply(ft, cmd);
    ToldInFull(ms, Incoming(ft, client.messageBuffer, client.fifoRead), reply, cmd, answer,
               client.messageBuffer.maxSize);
    NothingPending(ft, client.messageBuffer.Contents(), client.fifoRead.bytes);
  }

  method RequestRound(ft: FloatText, client: Client, thread: ServiceThread, line: Line, turn: Turn,
                      ghost cmd: Command)
    returns (status: Status, ghost answer: Option<Tuple>)
    requires Connected(client, thread) && thread.Valid() && AtRest(client, thread)
    requires CommandOf(line) == Some(cmd) && Audible(ft, cmd)
    modifies thread.database, thread.database.Waiters(), thread.awaiting
    modifies client.fifoRead, client.fifoWrite, thread.messageBuffer
    ensures thread.messageBuffer.Contents() == NO_BYTES && client.fifoWrite.bytes == []
    ensures thread.database.RowsOk() && thread.database.QueueOk() && thread.messageBuffer.Valid()
    ensures fresh(thread.database.Waiters() - old(thread.database.Waiters()) - {thread.awaiting})
    ensures (thread.database.Abstract(), answer) ==
            PerformAmong(old(thread.database.Abstract()), HeardAs(ft, cmd), turn)
    ensures status == (if answer.Some? then Replied else Waiting) && (status == Replied ==> thread.Valid())
    ensures client.fifoRead.bytes == Wire(ft, ReplyMessages(answer))
  {
    ghost var s := thread.database.Abstract();
    assert [] + Wire(ft, CommandMessages(cmd)) == Wire(ft, CommandMessages(cmd));
    var sent := client.HandleCommand(ft, line);
    assert thread.database.Abstract() == s;
    status, answer := ServeRound(ft, thread, turn, cmd);
  }

  lemma CommandKeepsReplyable(ft: FloatText, s: Space, cmd: Command, turn: Turn)
    requires Audible(ft, cmd) && AllReplyable(ft, s.store) && TurnOk(ft, turn)
    ensures var (s1, answer) := PerformAmong(s, HeardAs(ft, cmd), turn);
      AllReplyable(ft, s1.store) && (answer.Some? ==> Replyable(ft, answer.value))
  {
    if cmd.Write? {
      WrittenIsReplyable(ft, cmd.tuple);
    }
    AnswersAreReplyable(ft, s, HeardAs(ft, cmd), turn);
  }

  // A command of the client and its reply; NoReply if it waits in vain.
  function PerformCommand(ft: FloatText, s: Space, cmd: Command, turn: Turn): (Space, Reply) {
    var (s1, answer) := PerformAmong(s, HeardAs(ft, cmd), turn);
    (s1, if answer.Some? then ReplyTo(cmd, answer.value) else NoReply)
  }

  // One command and its reply, at once or when the others have woken the thread; NoReply if they do not.
  method Round(ft: FloatText, client: Client, thread: ServiceThread, line: Line, turn: Turn, cmd: Command)
    returns (reply: Reply)
    requires Connected(client, thread) && thread.Valid() && AtRest(client, thread)
    requires CommandOf(line) == Some(cmd) && Audible(ft, cmd)
    requires AllReplyable(ft, thread.database.contents) && TurnOk(ft, turn)
    modifies thread.database, thread.database.Waiters(), thread.awaiting
    modifies client.fifoRead, client.fifoWrite, client.messageBuffer, thread.messageBuffer
    ensures AtRest(client, thread) && thread.database.RowsOk() && thread.database.QueueOk()
    ensures AllReplyable(ft, thread.database.contents)
    ensures (thread.database.Abstract(), reply) == PerformCommand(ft, old(thread.database.Abstract()), cmd, turn)
    ensures reply != NoReply ==> thread.Valid() && Connected(client, thread)
    ensures fresh(thread.database.Waiters() - old(thread.database.Waiters()) - {thread.awaiting})
  {
    ghost var s := thread.database.Abstract();
    CommandKeepsReplyable(ft, s, cmd, turn);
    var status;
    ghost var answer;
    status, answer := RequestRound(ft, client, thread, line, turn, cmd);
    ghost var s1 := thread.database.Abstract();
    assert PerformCommand(ft, s, cmd, turn) == (s1, if answer.Some? then ReplyTo(cmd, answer.value) else NoReply);
    if status == Replied {
      reply := HearRound(ft, client, cmd, answer.value);
      assert thread.database.RowsOk() && thread.database.QueueOk() && thread.database.Abstract() == s1;
    } else {
      reply := NoReply;
    }
  }

  // ---- A session ---------------------------------------------------------------------

  function Understood(ft: FloatText, text: Bytes): Result<Command> {
    match ReadLine(ft, text)
    case Err(e) => Err(e)
    case Ok(line) => if CommandOf(line).Some? then Ok(CommandOf(line).value) else Err(BadVariantAccess)
  }

  // A line as it was understood, and what the others do meanwhile.
  function PerformUnderstood(ft: FloatText, s: Space, line: Result<Command>, turn: Turn): (Space, Reply) {
    match line
    case Err(e) => (HappenAll(s, turn.after), Rejected(e))
    case Ok(cmd) => PerformCommand(ft, s, cmd, turn)
  }

  // One typed line.
  function PerformLine(ft: FloatText, s: Space, line: Bytes, turn: Turn): (Space, Reply) {
    PerformUnderstood(ft, s, Understood(ft, line), turn)
  }

  // The typed lines up to the first that waits in vain, and their replies.
  function PerformLines(ft: FloatText, s: Space, lines: seq<Bytes>, others: seq<Turn>): (Space, seq<Reply>)
    decreases |lines|
  {
    if lines == [] then (s, [])
    else
      var (s1, reply) := PerformLine(ft, s, lines[0], Next(others));
      if reply == NoReply then (s1, [])
      else
        var (s2, replies) := PerformLines(ft, s1, lines[1..], Later(others));
        (s2, [reply] + replies)
  }

  // The tuple has the length of the patterns, and each element the type of its pattern, to whose value
  // it stands as the operator says. The server compares with the pattern it heard; one that survives
  // its text is the line's own.
  ghost predicate Satisfies(ft: FloatText, x: Tuple, p: seq<Pattern>) {
    |x| == |p| && forall i :: 0 <= i < |p| ==>
      var heard := if Rebuilt(ft, p[i]).Ok? then Rebuilt(ft, p[i]).value else p[i];
      Matching.SameType(x[i], heard.value) && Matching.Compares(heard.op, x[i], heard.value)
  }

  // What the reply to a line can be.
  ghost predicate Answers(ft: FloatText, line: Bytes, reply: Reply) {
    match Understood(ft, line)
    case Err(e) => reply == Rejected(e)
    case Ok(Write(_)) => reply == Success
    case Ok(Read(p)) => reply.Result? && Satisfies(ft, reply.tuple, p)
    case Ok(Input(p)) => reply.Result? && Satisfies(ft, reply.tuple, p)
  }

  lemma MatchesSatisfy(ft: FloatText, x: Tuple, p: seq<Pattern>)
    ensures MatchesTuple(RebuiltPatterns(ft, p), x) <==> Satisfies(ft, x, p)
  {
    MatchesElementwise(RebuiltPatterns(ft, p), x);
  }

  lemma ReplyAnswers(ft: FloatText, s: Space, cmd: Command, turn: Turn)
    ensures var reply := PerformCommand(ft, s, cmd, turn).1;
      match cmd
      case Write(_) => reply != NoReply ==> reply == Success
      case Read(p) => reply != NoReply ==> reply.Result? && Satisfies(ft, reply.tuple, p)
      case Input(p) => reply != NoReply ==> reply.Result? && Satisfies(ft, reply.tuple, p)
  {
    AnswersSuit(s, HeardAs(ft, cmd), turn);
    var answer := PerformAmong(s, HeardAs(ft, cmd), turn).1;
    if !cmd.Write? && answer.Some? {
      MatchesSatisfy(ft, answer.value, cmd.pattern);
    }
  }

  lemma LineIsAnswered(ft: FloatText, s: Space, line: Bytes, turn: Turn)
    ensures var reply := PerformLine(ft, s, line, turn).1; reply != NoReply ==> Answers(ft, line, reply)
  {
    if Understood(ft, line).Ok? {
      ReplyAnswers(ft, s, Understood(ft, line).value, turn);
    }
  }

  /** Whatever the others do, the i-th reply answers the i-th line: it matches the line's own pattern,
      found at once or passed to the waiting thread. */
  lemma {:induction false} RepliesAnswerTheirLines(ft: FloatText, s: Space, lines: seq<Bytes>, others: seq<Turn>)
    ensures var replies := PerformLines(ft, s, lines, others).1;
      |replies| <= |lines| && forall i :: 0 <= i < |replies| ==> Answers(ft, lines[i], replies[i])
    decreases |lines|
  {
    if lines != [] {
      var (s1, reply) := PerformLine(ft, s, lines[0], Next(others));
      LineIsAnswered(ft, s, lines[0], Next(others));
      if reply != NoReply {
        RepliesAnswerTheirLines(ft, s1, lines[1..], Later(others));
        var replies := PerformLines(ft, s1, lines[1..], Later(others)).1;
        assert forall i :: 0 < i <= |replies| ==>
            ([reply] + replies)[i] == replies[i - 1] && lines[i] == lines[1..][i - 1];
      }
    }
  }

  // i lines have been dealt with, and the rest starts from s1.
  ghost predicate Midway(ft: FloatText, s: Space, lines: seq<Bytes>, others: seq<Turn>, i: nat,
                         replies: seq<Reply>, s1: Space, later: seq<Turn>)
    requires i <= |lines|
  {
    var (s2, more) := PerformLines(ft, s1, lines[i..], later);
    PerformLines(ft, s, lines, others) == (s2, replies + more)
  }

  lemma MidwayNext(ft: FloatText, s: Space, lines: seq<Bytes>, others: seq<Turn>, i: nat,
                   replies: seq<Reply>, s1: Space, later: seq<Turn>)
    requires i < |lines| && Midway(ft, s, lines, others, i, replies, s1, later)
    ensures var (s2, reply) := PerformLine(ft, s1, lines[i], Next(later));
      if reply == NoReply then PerformLines(ft, s, lines, others) == (s2, replies)
      else Midway(ft, s, lines, others, i + 1, replies + [reply], s2, Later(later))
  {
    assert lines[i..][0] == lines[i] && lines[i..][1..] == lines[i + 1..];
    var (s2, reply) := PerformLine(ft, s1, lines[i], Next(later));
    if reply == NoReply {
      assert replies + [] == replies;
    } else {
      Assoc(replies, [reply], PerformLines(ft, s2, lines[i + 1..], Later(later)).1);
    }
  }

  // A line that is not understood, and what the others do meanwhile.
  method Pause(ft: FloatText, client: Client, thread: ServiceThread, deeds: seq<Deed>)
    requires Connected(client, thread) && thread.Valid() && AtRest(client, thread)
    requires AllReplyable(ft, thread.database.contents) && DeedsOk(ft, deeds)
    modifies thread.database, thread.database.Waiters()
    ensures Connected(client, thread) && thread.Valid() && AtRest(client, thread)
    ensures AllReplyable(ft, thread.database.contents)
    ensures fresh(thread.database.Waiters() - old(thread.database.Waiters()))
    ensures thread.database.Abstract() == HappenAll(old(thread.database.Abstract()), deeds)
  {
    DeedsKeepReplyable(ft, thread.database.Abstract(), deeds);
    ActAll(thread.database, deeds, thread.awaiting, Away);
  }

  // Every line that is understood is heard by the server.
  predicate AllLinesAudible(ft: FloatText, lines: seq<Bytes>) {
    forall i :: 0 <= i < |lines| && Understood(ft, lines[i]).Ok? ==> Audible(ft, Understood(ft, lines[i]).value)
  }

  // If the line is understood, there is a round.
  method AnswerLine(ft: FloatText, client: Client, thread: ServiceThread, line: Result<Line>, turn: Turn,
                    ghost understood: Result<Command>)
    returns (reply: Reply)
    requires Connected(client, thread) && thread.Valid() && AtRest(client, thread)
    requires AllReplyable(ft, thread.database.contents) && TurnOk(ft, turn)
    requires line.Err? ==> understood == Err(line.error)
    requires line.Ok? ==> understood.Ok? && CommandOf(line.value) == Some(understood.value)
    requires understood.Ok? ==> Audible(ft, understood.value)
    modifies thread.database, thread.database.Waiters(), thread.awaiting
    modifies client.fifoRead, client.fifoWrite, client.messageBuffer, thread.messageBuffer
    ensures AtRest(client, thread) && AllReplyable(ft, thread.database.contents)
    ensures reply != NoReply ==> thread.Valid() && Connected(client, thread)
    ensures fresh(thread.database.Waiters() - old(thread.database.Waiters()) - {thread.awaiting})
    ensures (thread.database.Abstract(), reply) ==
            PerformUnderstood(ft, old(thread.database.Abstract()), understood, turn)
  {
    if line.Err? {
      reply := Rejected(line.error);
      Pause(ft, client, thread, turn.after);
    } else {
      reply := Round(ft, client, thread, line.value, turn, CommandOf(line.value).value);
    }
  }

  // One line: the text is parsed and answered.
  method HandleLine(ft: FloatText, client: Client, thread: ServiceThread, text: Bytes, turn: Turn)
    returns (reply: Reply)
    requires Connected(client, thread) && thread.Valid() && AtRest(client, thread)
    requires AllReplyable(ft, thread.database.contents) && TurnOk(ft, turn)
    requires Understood(ft, text).Ok? ==> Audible(ft, Understood(ft, text).value)
    modifies thread.database, thread.database.Waiters(), thread.awaiting
    modifies client.fifoRead, client.fifoWrite, client.messageBuffer, thread.messageBuffer
    ensures AtRest(client, thread) && AllReplyable(ft, thread.database.contents)
    ensures reply != NoReply ==> thread.Valid() && Connected(client, thread)
    ensures fresh(thread.database.Waiters() - old(thread.database.Waiters()) - {thread.awaiting})
    ensures (thread.database.Abstract(), reply) == PerformLine(ft, old(thread.database.Abstract()), text, turn)
  {
    var line := Parse(ft, text);
    if line.Ok? {
      ParsedLineIsCommand(ft, text);
    }
    reply := AnswerLine(ft, client, thread, line, turn, Understood(ft, text));
  }

  // The loop of interact.
  method Converse(ft: FloatText, client: Client, thread: ServiceThread, lines: seq<Bytes>, others: seq<Turn>)
    returns (replies: seq<Reply>)
    requires Connected(client, thread) && thread.Valid() && AtRest(client, thread)
    requires AllReplyable(ft, thread.database.contents) && OthersOk(ft, others) && AllLinesAudible(ft, lines)
    modifies thread.database, thread.database.Waiters(), thread.awaiting
    modifies client.fifoRead, client.fifoWrite, client.messageBuffer, thread.messageBuffer
    ensures AtRest(client, thread)
    ensures (thread.database.Abstract(), replies) == PerformLines(ft, old(thread.database.Abstract()), lines, others)
  {
    ghost var s := thread.database.Abstract();
    assert lines[0..] == lines && [] + PerformLines(ft, s, lines, others).1 == PerformLines(ft, s, lines, others).1;
    replies := [];
    var later := others;
    for i := 0 to |lines|
      invariant Connected(client, thread) && thread.Valid() && AtRest(client, thread)
      invariant AllReplyable(ft, thread.database.contents) && OthersOk(ft, later)
      invariant fresh(thread.database.Waiters() - old(thread.database.Waiters()))
      invariant Midway(ft, s, lines, others, i, replies, thread.database.Abstract(), later)
    {
      MidwayNext(ft, s, lines, others, i, replies, thread.database.Abstract(), later);
      var reply := HandleLine(ft, client, thread, lines[i], Next(later));
      if reply == NoReply {
        return;
      }
      replies := replies + [reply];
      later := Later(later);
    }
    assert replies + [] == replies;
  }

  /** For any lines that are understood as commands that can be sent, or not understood at all, however
      the pipes cut the bytes and whatever the other threads do after each line: the i-th reply
      answers the i-th line, at once or when the waiting thread is woken, the database ends where
      the commands and the others take it, and pipes and buffers are empty again. The session ends
      early at the first command that waits in vain. */
  method Interact(ft: FloatText, client: Client, thread: ServiceThread, lines: seq<Bytes>, others: seq<Turn>)
    returns (replies: seq<Reply>)
    requires Connected(client, thread) && thread.Valid() && AtRest(client, thread)
    requires AllReplyable(ft, thread.database.contents) && OthersOk(ft, others) && AllLinesAudible(ft, lines)
    modifies thread.database, thread.database.Waiters(), thread.awaiting
    modifies client.fifoRead, client.fifoWrite, client.messageBuffer, thread.messageBuffer
    ensures AtRest(client, thread)
    ensures (thread.database.Abstract(), replies) == PerformLines(ft, old(thread.database.Abstract()), lines, others)
    ensures |replies| <= |lines| && forall i :: 0 <= i < |replies| ==> Answers(ft, lines[i], replies[i])
  {
    RepliesAnswerTheirLines(ft, thread.database.Abstract(), lines, others);
    replies := Converse(ft, client, thread, lines, others);
  }

  predicate OfKind(lang: Language, items: seq<Item>) {
    if lang == Elems then AllElems(items) else AllPatterns(items)
  }

  lemma ItemIsOfItsKind(ft: FloatText, lang: Language, s: Bytes)
    requires s != [] && ReadItem(ft, lang, s).Ok?
    ensures OfKind(lang, [ReadItem(ft, lang, s).value.item])
  {
  }

  lemma KindCons(lang: Language, item: Item, items: seq<Item>)
    requires OfKind(lang, [item]) && OfKind(lang, items)
    ensures OfKind(lang, [item] + items)
  {
    assert [item][0] == item;
  }

  lemma {:induction false} ItemsAreOfTheirKind(ft: FloatText, lang: Language, s: Bytes)
    requires ReadItems(ft, lang, s).Ok?
    ensures OfKind(lang, ReadItems(ft, lang, s).value.items)
    decreases |s|
  {
    if s[0] != ')' {
      var rest := BehindItem(ReadItem(ft, lang, s).value.rest).value;
      ItemIsOfItsKind(ft, lang, s);
      ItemsAreOfTheirKind(ft, lang, rest);
      KindCons(lang, ReadItem(ft, lang, s).value.item, ReadItems(ft, lang, rest).value.items);
    }
  }

  /** What the parser accepts is a command: handleCommand never meets an item of the wrong kind. */
  lemma ParsedLineIsCommand(ft: FloatText, text: Bytes)
    requires ReadLine(ft, text).Ok?
    ensures CommandOf(ReadLine(ft, text).value).Some?
  {
    var lang := if "output" <= text then Elems else Patterns;
    var operand := if "read" <= text then text[4..] else if "output" <= text then text[6..] else text[5..];
    assert ReadOperand(ft, lang, operand).Ok?;
    ItemsAreOfTheirKind(ft, lang, BehindOpen(operand).value);
  }

  // The replies to these answers.
  function ReplyList(cmds: seq<Command>, answers: seq<Tuple>): (rs: seq<Reply>)
    requires |answers| <= |cmds|
  {
    if answers == [] then [] else [ReplyTo(cmds[0], answers[0])] + ReplyList(cmds[1..], answers[1..])
  }

  // The command the server hears for a line.
  function HeardLine(ft: FloatText, text: Bytes): Result<Command> {
    match Understood(ft, text)
    case Err(e) => Err(e)
    case Ok(cmd) => Ok(HeardAs(ft, cmd))
  }

  /** If every line is understood, the session is that of the commands as they are heard. */
  lemma {:induction false} LinesArePerformed(ft: FloatText, s: Space, lines: seq<Bytes>, cmds: seq<Command>,
                                             others: seq<Turn>)
    requires |cmds| == |lines|
    requires forall i :: 0 <= i < |lines| ==> HeardLine(ft, lines[i]) == Ok(cmds[i])
    ensures var (s1, answers) := PerformAll(s, cmds, others);
      |answers| <= |cmds| && PerformLines(ft, s, lines, others) == (s1, ReplyList(cmds, answers))
    decreases |lines|
  {
    if lines != [] {
      assert HeardLine(ft, lines[0]) == Ok(cmds[0]);
      var (s1, answer) := PerformAmong(s, cmds[0], Next(others));
      if answer.Some? {
        LinesArePerformed(ft, s1, lines[1..], cmds[1..], Later(others));
        var answers := PerformAll(s1, cmds[1..], Later(others)).1;
        assert ([answer.value] + answers)[1..] == answers;
      }
    }
  }

  /** A line `output` with a shown tuple writes that tuple. */
  lemma ShownTupleIsWritten(ft: FloatText, t: Tuple)
    requires t != [] && forall e :: e in t ==> Layout.Readable(ft, e)
    ensures Understood(ft, Layout.OUTPUT + Show.Shown(ft, t)) == Ok(Write(t))
  {
    Show.ShownTupleIsReadBack(ft, t);
    var line := Line(OP_LINDA_WRITE, Layout.ElemItems(t));
    assert AllElems(line.items) && ElemsOf(line.items) == t;
  }
}
