/** How the main loop of a service thread goes on and ends: what it answers, what it passes over, and
    what makes it leave, block or throw (service_thread.cpp). */
module Farewell {
  import opened Types
  import opened Numbers
  import opened Seqs
  import opened TupleSpace
  import opened Framing
  import opened Codec
  import opened Terminator
  import opened Link
  import opened Receiving
  import opened Others
  import opened Service
  import opened Delivery
  import opened Session

  // What a thread finds one after the other in its pipe.
  datatype Entry =
    | Ask(command: Command)
    // A header whose size is negative as an int: no items follow.
    | Hollow(op: Byte, size: UInt32)
    // A message that asks for nothing.
    | Noise(message: Message)

  predicate EntryOk(e: Entry) {
    match e
    case Ask(cmd) => Items(cmd) < 0x8000_0000
    case Hollow(op, size) => (op as int == 32 || op as int == 64 || op as int == 128) && size >= 0x8000_0000
    case Noise(ConnectionMessage(connect)) => connect
    case Noise(OperationMessage(op, _)) => op as int != 32 && op as int != 64 && op as int != 128
    case Noise(_) => true
  }

  predicate ScriptOk(es: seq<Entry>) {
    forall i :: 0 <= i < |es| ==> EntryOk(es[i])
  }

  function EntryMessages(e: Entry): seq<Message> {
    match e
    case Ask(cmd) => CommandMessages(cmd)
    case Hollow(op, size) => [OperationMessage(op, size)]
    case Noise(m) => [m]
  }

  function ScriptMessages(es: seq<Entry>): seq<Message> {
    if es == [] then [] else EntryMessages(es[0]) + ScriptMessages(es[1..])
  }

  function Asked(e: Entry): Option<Command> {
    match e
    case Ask(cmd) => Some(cmd)
    case Hollow(op, _) => Some(if op as int == 32 then Write([]) else if op as int == 64 then Input([]) else Read([]))
    case Noise(_) => None
  }

  // What has become of a script: the database, the answers, what the others have not done yet, and
  // whether nothing waits in vain.
  datatype Course = Course(space: Space, answers: seq<Tuple>, later: seq<Turn>, done: bool)

  function Attend(s: Space, es: seq<Entry>, others: seq<Turn>): Course
    decreases |es|
  {
    if es == [] then Course(s, [], others, true)
    else if Asked(es[0]).None? then Attend(HappenAll(s, Next(others).after), es[1..], Later(others))
    else
      var (s1, answer) := PerformAmong(s, Asked(es[0]).value, Next(others));
      if answer.None? then Course(s1, [], Later(others), false)
      else
        var c := Attend(s1, es[1..], Later(others));
        c.(answers := [answer.value] + c.answers)
  }

  // How the messages behind the script end the loop.
  datatype Ending =
    // Client::disconnect
    | Goodbye
    // Among the items behind a header comes a message of another type.
    | WrongItem(op: Byte, size: UInt32, items: seq<Message>, wrong: Message)
    // The messages end, maybe in front of the last items behind a header.
    | Silence
    | TooFewItems(op: Byte, size: UInt32, items: seq<Message>)

  predicate ItemFor(op: Byte, m: Message) {
    if op as int == 32 then m.TupleElemMessage? else m.PatternMessage?
  }

  predicate FewerItems(op: Byte, size: UInt32, items: seq<Message>) {
    && (op as int == 32 || op as int == 64 || op as int == 128)
    && |items| < size < 0x8000_0000
    && forall i :: 0 <= i < |items| ==> ItemFor(op, items[i])
  }

  predicate EndingOk(end: Ending) {
    match end
    case WrongItem(op, size, items, wrong) => FewerItems(op, size, items) && !ItemFor(op, wrong)
    case TooFewItems(op, size, items) => FewerItems(op, size, items)
    case _ => true
  }

  function EndingMessages(end: Ending): seq<Message> {
    match end
    case Goodbye => [ConnectionMessage(false)]
    case WrongItem(op, size, items, wrong) => [OperationMessage(op, size)] + (items + [wrong])
    case Silence => []
    case TooFewItems(op, size, items) => [OperationMessage(op, size)] + items
  }

  // A loop that blocks for want of messages has taken them all.
  predicate Blocks(end: Ending) {
    end.Silence? || end.TooFewItems?
  }

  lemma FirstOfAll(m: Message, ms: seq<Message>, rest: seq<Option<Message>>)
    ensures AllSome([m] + ms) + rest != []
    ensures NextRead(AllSome([m] + ms) + rest) == (Some(m), AllSome(ms) + rest)
  {
    FirstOf(m, ms, rest);
  }

  // One entry in front of others.
  lemma EntryIsHeard(e: Entry, rest: seq<Option<Message>>)
    requires EntryOk(e)
    ensures var (h, left) := Hear(AllSome(EntryMessages(e)) + rest);
      && left == rest
      && (Asked(e).Some? ==> h == Operation(Asked(e).value))
      && (Asked(e).None? ==> h == Nothing || h == Connection(true))
  {
    match e
    case Ask(cmd) => CommandIsHeard(cmd, rest);
    case Hollow(op, size) =>
      assert [OperationMessage(op, size)] == [OperationMessage(op, size)] + [];
      FirstOfAll(OperationMessage(op, size), [], rest);
      assert AllSome([]) + rest == rest;
    case Noise(m) =>
      assert [m] == [m] + [];
      FirstOfAll(m, [], rest);
      assert AllSome([]) + rest == rest;
  }

  lemma EntryIsServed(e: Entry, rest: seq<Option<Message>>, s: Space, others: seq<Turn>)
    requires EntryOk(e)
    ensures var all := Serve(AllSome(EntryMessages(e)) + rest, s, others);
      match Asked(e)
      case None => all == Serve(rest, HappenAll(s, Next(others).after), Later(others))
      case Some(cmd) =>
        var (s1, answer) := PerformAmong(s, cmd, Next(others));
        answer.Some? ==>
          var r := Serve(rest, s1, Later(others));
          all == r.(replies := TupleMessages(OP_RETURN_RESULT, answer.value) + r.replies)
  {
    EntryIsHeard(e, rest);
    ServeNext(AllSome(EntryMessages(e)) + rest, s, others);
    if Asked(e).None? {
      var r := Serve(rest, HappenAll(s, Next(others).after), Later(others));
      assert [] + r.replies == r.replies;
    }
  }

  lemma {:induction false} ScriptIsServed(es: seq<Entry>, tail: seq<Option<Message>>, s: Space, others: seq<Turn>)
    requires ScriptOk(es) && Attend(s, es, others).done
    ensures var c := Attend(s, es, others); var r := Serve(tail, c.space, c.later);
      Serve(AllSome(ScriptMessages(es)) + tail, s, others) == r.(replies := AllReplies(c.answers) + r.replies)
    decreases |es|
  {
    if es == [] {
      assert AllSome([]) + tail == tail;
      var r := Serve(tail, s, others);
      assert [] + r.replies == r.replies;
    } else {
      var e, rest := es[0], AllSome(ScriptMessages(es[1..])) + tail;
      AllSomeAppend(EntryMessages(e), ScriptMessages(es[1..]));
      Assoc(AllSome(EntryMessages(e)), AllSome(ScriptMessages(es[1..])), tail);
      EntryIsServed(e, rest, s, others);
      if Asked(e).None? {
        ScriptIsServed(es[1..], tail, HappenAll(s, Next(others).after), Later(others));
      } else {
        var (s1, answer) := PerformAmong(s, Asked(e).value, Next(others));
        ScriptIsServed(es[1..], tail, s1, Later(others));
        var c := Attend(s1, es[1..], Later(others));
        FirstReply(answer.value, c.answers, Serve(tail, c.space, c.later).replies);
      }
    }
  }

  lemma FirstReply(x: Tuple, answers: seq<Tuple>, more: seq<Message>)
    ensures AllReplies([x] + answers) + more == TupleMessages(OP_RETURN_RESULT, x) + (AllReplies(answers) + more)
  {
    assert ([x] + answers)[1..] == answers;
    Assoc(TupleMessages(OP_RETURN_RESULT, x), AllReplies(answers), more);
  }

  // ---- Endings -----------------------------------------------------------------------

  lemma {:induction false} ItemsAreTaken<T>(items: seq<Message>, n: int, pick: Message -> Option<T>,
                                            tail: seq<Option<Message>>)
    requires |items| < n && forall i :: 0 <= i < |items| ==> pick(items[i]).Some?
    ensures var (r, left) := Receive(AllSome(items) + tail, n, pick);
      var (r1, left1) := Receive(tail, n - |items|, pick);
      left == left1 && (!r1.Got? ==> r == r1)
    decreases |items|
  {
    if items == [] {
      assert AllSome(items) + tail == tail;
    } else {
      assert items == [items[0]] + items[1..];
      FirstOf(items[0], items[1..], tail);
      ItemsAreTaken(items[1..], n - 1, pick, tail);
    }
  }

  lemma WrongIsHeard(op: Byte, size: UInt32, items: seq<Message>, wrong: Message, rest: seq<Option<Message>>)
    requires FewerItems(op, size, items) && !ItemFor(op, wrong)
    ensures HearOperation(op, ToSigned(size), AllSome(items) + ([Some(wrong)] + rest)) == (BadOperand, rest)
  {
    var tail := [Some(wrong)] + rest;
    assert tail[0] == Some(wrong) && tail[1..] == rest;
    if op as int == 32 {
      ItemsAreTaken(items, ToSigned(size), ElemOf, tail);
    } else {
      ItemsAreTaken(items, ToSigned(size), PatternOf, tail);
    }
  }

  lemma TooFewAreHeard(op: Byte, size: UInt32, items: seq<Message>)
    requires FewerItems(op, size, items)
    ensures HearOperation(op, ToSigned(size), AllSome(items) + []) == (TooFew, [])
  {
    if op as int == 32 {
      ItemsAreTaken(items, ToSigned(size), ElemOf, []);
    } else {
      ItemsAreTaken(items, ToSigned(size), PatternOf, []);
    }
  }

  function StatusOf(end: Ending): Status {
    match end
    case Goodbye => Disconnected
    case WrongItem(_, _, _, _) => Aborted
    case _ => Starved
  }

  lemma EndingIsHeard(end: Ending, rest: seq<Option<Message>>)
    requires EndingOk(end) && (Blocks(end) ==> rest == [])
    ensures Hear(AllSome(EndingMessages(end)) + rest) ==
            (match end
             case Goodbye => (Connection(false), rest)
             case WrongItem(_, _, _, _) => (BadOperand, rest)
             case _ => (TooFew, []))
  {
    match end
    case Goodbye =>
      assert [ConnectionMessage(false)] == [ConnectionMessage(false)] + [];
      FirstOfAll(ConnectionMessage(false), [], rest);
      assert AllSome([]) + rest == rest;
    case WrongItem(op, size, items, wrong) =>
      FirstOfAll(OperationMessage(op, size), items + [wrong], rest);
      AllSomeAppend(items, [wrong]);
      var none: seq<Message> := [wrong][1..];
      assert none == [] && AllSome([wrong]) == [Some(wrong)];
      Assoc(AllSome(items), [Some(wrong)], rest);
      WrongIsHeard(op, size, items, wrong, rest);
    case Silence => assert AllSome([]) + rest == [];
    case TooFewItems(op, size, items) =>
      FirstOfAll(OperationMessage(op, size), items, rest);
      TooFewAreHeard(op, size, items);
  }

  lemma EndingIsServed(end: Ending, rest: seq<Option<Message>>, s: Space, others: seq<Turn>)
    requires EndingOk(end) && (Blocks(end) ==> rest == [])
    ensures Serve(AllSome(EndingMessages(end)) + rest, s, others) == Progress(StatusOf(end), s, [], rest)
  {
    EndingIsHeard(end, rest);
    ServeNext(AllSome(EndingMessages(end)) + rest, s, others);
  }

  lemma ScriptAndEnding(es: seq<Entry>, end: Ending, rest: seq<Option<Message>>, s: Space, others: seq<Turn>)
    requires ScriptOk(es) && Attend(s, es, others).done && EndingOk(end) && (Blocks(end) ==> rest == [])
    ensures var c, ms := Attend(s, es, others), AllSome(ScriptMessages(es)) + (AllSome(EndingMessages(end)) + rest);
      && Serve(ms, s, others) == Progress(StatusOf(end), c.space, AllReplies(c.answers), rest)
      && AllReadTo(ms, rest)
  {
    var c, tail := Attend(s, es, others), AllSome(EndingMessages(end)) + rest;
    ScriptIsServed(es, tail, s, others);
    EndingIsServed(end, rest, c.space, c.later);
    assert AllReplies(c.answers) + [] == AllReplies(c.answers);
    AllSomeAppend(ScriptMessages(es), EndingMessages(end));
    Assoc(AllSome(ScriptMessages(es)), AllSome(EndingMessages(end)), rest);
    AllSomeIsRead(ScriptMessages(es) + EndingMessages(end), rest);
  }

  /** The main loop answers every command in front of the end, whatever comes in between that asks for
      nothing: a second connection request, an unknown operation, stray items. It leaves at the
      client's farewell, throws at a message of another type among the items of a tuple or pattern,
      blocks where the messages end, and touches nothing behind. */
  method ServeScript(ft: FloatText, thread: ServiceThread, others: seq<Turn>, ghost es: seq<Entry>,
                     ghost end: Ending, ghost rest: seq<Option<Message>>)
    returns (status: Status)
    requires thread.Valid() && ScriptOk(es) && EndingOk(end) && (Blocks(end) ==> rest == [])
    requires Incoming(ft, thread.messageBuffer, thread.fifoRead).messages ==
             AllSome(ScriptMessages(es)) + (AllSome(EndingMessages(end)) + rest)
    requires Attend(thread.database.Abstract(), es, others).done
    modifies thread.database, thread.database.Waiters(), thread.awaiting
    modifies thread.fifoRead, thread.fifoWrite, thread.messageBuffer
    ensures status ==
            (match end
             case Goodbye => Disconnected
             case WrongItem(_, _, _, _) => Aborted
             case _ => Starved)
    ensures var c := Attend(old(thread.database.Abstract()), es, others);
      && thread.database.Abstract() == c.space
      && thread.fifoWrite.bytes == old(thread.fifoWrite.bytes) + Wire(ft, AllReplies(c.answers))
    ensures Incoming(ft, thread.messageBuffer, thread.fifoRead) ==
            Feed(rest, old(Incoming(ft, thread.messageBuffer, thread.fifoRead)).partial)
  {
    ScriptAndEnding(es, end, rest, thread.database.Abstract(), others);
    ghost var sent;
    status, sent := thread.MainLoop(ft, others);
  }

  // ---- A client from its connection to its end ---------------------------------------

  function Asks(cmds: seq<Command>): (es: seq<Entry>)
    ensures |es| == |cmds| && forall i :: 0 <= i < |es| ==> es[i] == Ask(cmds[i])
  {
    seq(|cmds|, i requires 0 <= i < |cmds| => Ask(cmds[i]))
  }

  lemma {:induction false} AsksAreCommands(cmds: seq<Command>, s: Space, others: seq<Turn>)
    requires |PerformAll(s, cmds, others).1| == |cmds|
    ensures ScriptMessages(Asks(cmds)) == SessionMessages(cmds)
    ensures var c := Attend(s, Asks(cmds), others); c.done && (c.space, c.answers) == PerformAll(s, cmds, others)
    decreases |cmds|
  {
    if cmds != [] {
      var (s1, answer) := PerformAmong(s, cmds[0], Next(others));
      AnswersAreAsMany(s1, cmds[1..], Later(others));
      assert Asks(cmds)[1..] == Asks(cmds[1..]);
      AsksAreCommands(cmds[1..], s1, Later(others));
    }
  }

  lemma AsksOnly(cmds: seq<Command>, s: Space, others: seq<Turn>)
    requires AllCounted(cmds) && |PerformAll(s, cmds, others).1| == |cmds|
    ensures ScriptOk(Asks(cmds)) && ScriptMessages(Asks(cmds)) == SessionMessages(cmds)
    ensures var c := Attend(s, Asks(cmds), others); c.done && (c.space, c.answers) == PerformAll(s, cmds, others)
  {
    AsksAreCommands(cmds, s, others);
  }

  /** The commands of a client are answered in order, and at `ConnectionMessage(false)`, which it sends on
      `exit`, the loop ends; what follows stays in the pipe. */
  method ServeUntilGoodbye(ft: FloatText, thread: ServiceThread, others: seq<Turn>, ghost cmds: seq<Command>,
                           ghost rest: seq<Option<Message>>)
    returns (status: Status)
    requires thread.Valid() && AllCounted(cmds)
    requires Incoming(ft, thread.messageBuffer, thread.fifoRead).messages ==
             AllSome(SessionMessages(cmds)) + ([Some(ConnectionMessage(false))] + rest)
    requires |PerformAll(thread.database.Abstract(), cmds, others).1| == |cmds|
    modifies thread.database, thread.database.Waiters(), thread.awaiting
    modifies thread.fifoRead, thread.fifoWrite, thread.messageBuffer
    ensures status == Disconnected
    ensures var (s1, answers) := PerformAll(old(thread.database.Abstract()), cmds, others);
      && thread.database.Abstract() == s1
      && thread.fifoWrite.bytes == old(thread.fifoWrite.bytes) + Wire(ft, AllReplies(answers))
    ensures Incoming(ft, thread.messageBuffer, thread.fifoRead) ==
            Feed(rest, old(Incoming(ft, thread.messageBuffer, thread.fifoRead)).partial)
  {
    AsksOnly(cmds, thread.database.Abstract(), others);
    GoodbyeMessages();
    status := ServeScript(ft, thread, others, Asks(cmds), Goodbye, rest);
  }

  lemma GoodbyeMessages()
    ensures AllSome(EndingMessages(Goodbye)) == [Some(ConnectionMessage(false))]
  {
    var none: seq<Message> := [ConnectionMessage(false)][1..];
    assert none == [];
  }

  /** A connection request of a client that is connected changes nothing: the loop goes on as without
      it. */
  method ServeBehindHello(ft: FloatText, thread: ServiceThread, others: seq<Turn>, ghost cmds: seq<Command>,
                          ghost rest: seq<Option<Message>>)
    returns (status: Status)
    requires thread.Valid() && AllCounted(cmds)
    requires Incoming(ft, thread.messageBuffer, thread.fifoRead).messages ==
             [Some(ConnectionMessage(true))] +
             (AllSome(SessionMessages(cmds)) + ([Some(ConnectionMessage(false))] + rest))
    requires |PerformAll(thread.database.Abstract(), cmds, others).1| == |cmds|
    modifies thread.database, thread.database.Waiters(), thread.awaiting
    modifies thread.fifoRead, thread.fifoWrite, thread.messageBuffer
    ensures status == Disconnected
    ensures var (s1, answers) := PerformAll(old(thread.database.Abstract()), cmds, others);
      && thread.database.Abstract() == s1
      && thread.fifoWrite.bytes == old(thread.fifoWrite.bytes) + Wire(ft, AllReplies(answers))
    ensures Incoming(ft, thread.messageBuffer, thread.fifoRead) ==
            Feed(rest, old(Incoming(ft, thread.messageBuffer, thread.fifoRead)).partial)
  {
    ghost var s := thread.database.Abstract();
    ghost var es := [Noise(ConnectionMessage(true))] + Asks(cmds);
    AsksOnly(cmds, s, others);
    HelloFirst(cmds, s, others, rest);
    GoodbyeMessages();
    status := ServeScript(ft, thread, [Turn([], [])] + others, es, Goodbye, rest);
  }

  lemma HelloFirst(cmds: seq<Command>, s: Space, others: seq<Turn>, rest: seq<Option<Message>>)
    requires ScriptOk(Asks(cmds)) && ScriptMessages(Asks(cmds)) == SessionMessages(cmds)
    ensures var es, bye := [Noise(ConnectionMessage(true))] + Asks(cmds), [Some(ConnectionMessage(false))] + rest;
      && ScriptOk(es) && Attend(s, es, [Turn([], [])] + others) == Attend(s, Asks(cmds), others)
      && AllSome(ScriptMessages(es)) + bye == [Some(ConnectionMessage(true))] + (AllSome(SessionMessages(cmds)) + bye)
  {
    var hello, turns := Noise(ConnectionMessage(true)), [Turn([], [])] + others;
    var es, bye := [hello] + Asks(cmds), [Some(ConnectionMessage(false))] + rest;
    assert es[0] == hello && es[1..] == Asks(cmds) && turns[0] == Turn([], []) && turns[1..] == others;
    AllSomeAppend([ConnectionMessage(true)], SessionMessages(cmds));
    var none: seq<Message> := [ConnectionMessage(true)][1..];
    assert none == [] && AllSome([ConnectionMessage(true)]) == [Some(ConnectionMessage(true))];
    Assoc([Some(ConnectionMessage(true))], AllSome(SessionMessages(cmds)), bye);
  }

  // ---- The end of a session ----------------------------------------------------------

  lemma GoodbyeIsFed(ft: FloatText)
    ensures FeedOf(ft, Pending(NO_BYTES, Wire(ft, [ConnectionMessage(false)]))) ==
            Feed([Some(ConnectionMessage(false))], [])
  {
    var ms := [ConnectionMessage(false)];
    assert DollarFree(Serialize(ft, ms[0]));
    assert AllReach(ft, ms);
    WireIsFed(ft, ms);
    var none: seq<Message> := ms[1..];
    assert none == [] && AllReachedAs(ft, ms) == ms && AllSome(ms) == [Some(ConnectionMessage(false))];
  }

  /** When a client at rest leaves, its thread ends, and neither database nor pipes hold anything of it. */
  method Leave(ft: FloatText, client: Client, thread: ServiceThread, others: seq<Turn>) returns (status: Status)
    requires Connected(client, thread) && thread.Valid() && AtRest(client, thread)
    modifies thread.database, thread.database.Waiters(), thread.awaiting
    modifies client.fifoRead, client.fifoWrite, thread.messageBuffer
    ensures status == Disconnected && AtRest(client, thread)
    ensures thread.database.Abstract() == old(thread.database.Abstract())
  {
    ghost var s := thread.database.Abstract();
    client.Disconnect(ft);
    assert thread.fifoRead.bytes == Wire(ft, [ConnectionMessage(false)]);
    GoodbyeIsFed(ft);
    assert thread.database.Abstract() == s && thread.Valid();
    assert AllSome(SessionMessages([])) + ([Some(ConnectionMessage(false))] + []) == [Some(ConnectionMessage(false))];
    status := ServeUntilGoodbye(ft, thread, others, [], []);
    NothingPending(ft, thread.messageBuffer.Contents(), thread.fifoRead.bytes);
    assert Wire(ft, AllReplies([])) == [];
  }
}
