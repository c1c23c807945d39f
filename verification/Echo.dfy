/** The terminator is not escaped. A client can send bytes that break its own framing, but whatever
    a service thread received, it can send back. */
module Echo {
  import opened Types
  import opened Numbers
  import opened Framing
  import opened Codec
  import opened Terminator
  import opened Link
  import opened Receiving
  import opened Others
  import opened Replies
  import opened Service
  import opened Delivery

  /** Whatever bytes a client sends, however they are cut, whatever the other threads do and however
      often the thread waits: its replies come out of the other pipe as whole, readable frames, and
      the database keeps only tuples that can be sent. */
  method ServeAnyBytes(ft: FloatText, thread: ServiceThread, others: seq<Turn>)
    returns (status: Status, ghost sent: seq<Message>)
    requires thread.Valid() && thread.fifoWrite.bytes == []
    requires AllReplyable(ft, thread.database.contents) && OthersOk(ft, others)
    modifies thread.database, thread.database.Waiters(), thread.awaiting
    modifies thread.fifoRead, thread.fifoWrite, thread.messageBuffer
    ensures Pending(NO_BYTES, thread.fifoWrite.bytes) == Stream(Frames(ft, sent), [])
    ensures FeedOf(ft, Pending(NO_BYTES, thread.fifoWrite.bytes)) == Feed(AllSome(sent), [])
    ensures AllReplyable(ft, thread.database.contents)
  {
    status, sent := thread.MainLoop(ft, others);
    assert [] + Wire(ft, sent) == Wire(ft, sent);
    CleanReaches(ft, sent);
    WireIsFed(ft, sent);
  }

  // ---- Which writes arrive -----------------------------------------------------------

  predicate AllResendable(ft: FloatText, ms: seq<Option<Message>>) {
    forall i :: 0 <= i < |ms| && ms[i].Some? ==> Resendable(ft, ms[i].value)
  }

  lemma {:induction false} PlainFramesAreResendable(ft: FloatText, frames: seq<Bytes>)
    requires AllPlain(frames)
    ensures AllResendable(ft, AllDecoded(ft, frames))
  {
    if frames != [] {
      assert forall i :: 0 <= i < |frames[1..]| ==> frames[1..][i] == frames[i + 1];
      PlainFramesAreResendable(ft, frames[1..]);
      if Reads(ft, frames[0]) {
        ReadIsResendable(ft, frames[0]);
      }
    }
  }

  lemma {:induction false} NextIsResendable(ft: FloatText, ms: seq<Option<Message>>)
    requires AllResendable(ft, ms)
    ensures var (m, rest) := NextRead(ms);
      (m.Some? ==> Resendable(ft, m.value)) && AllResendable(ft, rest)
  {
    if ms != [] {
      assert AllResendable(ft, ms[1..]) by {
        assert forall i :: 0 <= i < |ms[1..]| ==> ms[1..][i] == ms[i + 1];
      }
      if ms[0].None? {
        NextIsResendable(ft, ms[1..]);
      }
    }
  }

  lemma SentBackCons(ft: FloatText, n: int, e: TupleElem, items: Tuple)
    requires n > 0 && Clean(ft, TupleElemMessage(e)) && SentBack(ft, n - 1, items)
    ensures SentBack(ft, n, [e] + items)
  {
  }

  lemma {:induction false} ReceptionIsClean(ft: FloatText, ms: seq<Option<Message>>, n: int)
    requires AllResendable(ft, ms)
    ensures var r := Receive(ms, n, ElemOf).0; r.Got? ==> SentBack(ft, n, r.items)
    decreases |ms|
  {
    if n > 0 {
      var (m, rest) := NextRead(ms);
      NextIsResendable(ft, ms);
      if m.Some? && ElemOf(m.value).Some? {
        ReceptionIsClean(ft, rest, n - 1);
        var r := Receive(rest, n - 1, ElemOf).0;
        if r.Got? {
          SentBackCons(ft, n, m.value.elem, r.items);
        }
      }
    }
  }

  lemma HeardIsReplyable(ft: FloatText, ms: seq<Option<Message>>)
    requires AllResendable(ft, ms)
    ensures HeardReplyable(ft, Hear(ms).0)
  {
    var (m, rest) := NextRead(ms);
    NextIsResendable(ft, ms);
    if m.Some? && m.value.OperationMessage? && m.value.opType == OP_LINDA_WRITE {
      var n := ToSigned(m.value.tupleSize);
      ReceptionIsClean(ft, rest, n);
      var r := Receive(rest, n, ElemOf).0;
      if r.Got? {
        ReceivedIsReplyable(ft, m.value.tupleSize, r.items);
      }
    }
  }

  // What can be sent back as a reply could be sent as a write.
  lemma ReplyableIsSendable(ft: FloatText, t: Tuple)
    ensures Replyable(ft, t) <==> Sendable(ft, Write(t))
  {
    var sent, answer := TupleMessages(OP_LINDA_WRITE, t), TupleMessages(OP_RETURN_RESULT, t);
    HeaderBytes(ft, OP_LINDA_WRITE, Low32(|t|));
    HeaderBytes(ft, OP_RETURN_RESULT, Low32(|t|));
    assert AllClean(ft, sent) ==> Clean(ft, sent[0]);
    assert AllClean(ft, answer) ==> Clean(ft, answer[0]);
    assert forall i :: 0 < i < |sent| ==> sent[i] == answer[i];
  }

  // What the thread hears first in these bytes.
  function HeardIn(ft: FloatText, bytes: Bytes): Heard {
    Hear(AllDecoded(ft, Split([], bytes).frames)).0
  }

  /** A write is heard as it was sent exactly if no message of it contains the terminator and its
      length fits into an int. */
  lemma WriteIsHeardIff(ft: FloatText, t: Tuple)
    ensures HeardIn(ft, Wire(ft, TupleMessages(OP_LINDA_WRITE, t))) == Operation(Write(t)) <==> Sendable(ft, Write(t))
  {
    var ms := TupleMessages(OP_LINDA_WRITE, t);
    var frames := Split([], Wire(ft, ms)).frames;
    SplitFramesArePlain([], Wire(ft, ms));
    assert AllPlain(frames);
    PlainFramesAreResendable(ft, frames);
    HeardIsReplyable(ft, AllDecoded(ft, frames));
    ReplyableIsSendable(ft, t);
    if Sendable(ft, Write(t)) {
      CleanReaches(ft, ms);
      PlainFrames(ft, ms);
      FramesAreDecoded(ft, ms);
      FramingIsExact(Frames(ft, ms));
      CommandIsHeard(Write(t), []);
      assert AllSome(ms) + [] == AllSome(ms);
    }
  }

  /** So it is for the service thread, however the bytes are cut and whatever the others do meanwhile. */
  method HearWrite(ft: FloatText, thread: ServiceThread, t: Tuple, between: seq<Deed>)
    returns (status: Status, ghost h: Heard)
    requires thread.Valid() && thread.messageBuffer.Contents() == NO_BYTES
    requires thread.fifoRead.bytes == Wire(ft, TupleMessages(OP_LINDA_WRITE, t))
    modifies thread.database, thread.database.Waiters(), thread.awaiting
    modifies thread.fifoRead, thread.fifoWrite, thread.messageBuffer
    ensures h == Operation(Write(t)) <==> Sendable(ft, Write(t))
    ensures Sendable(ft, Write(t)) ==>
      && (thread.database.Abstract(), Some([])) == PerformAround(old(thread.database.Abstract()), Write(t), between)
      && status == Replied && thread.fifoWrite.bytes == old(thread.fifoWrite.bytes) + Wire(ft, ReplyMessages(Some([])))
  {
    ghost var ms, s := TupleMessages(OP_LINDA_WRITE, t), thread.database.Abstract();
    ReplyableIsSendable(ft, t);
    if Sendable(ft, Write(t)) {
      CleanReaches(ft, ms);
      WireIsFed(ft, ms);
      CommandIsHeard(Write(t), []);
      AllSomeIsRead(ms, []);
      assert AllSome(ms) + [] == AllSome(ms);
      PerformedSoFar(s, Write(t), between);
    }
    status, h := thread.HandleNext(ft, between);
  }

  // ---- output(36) --------------------------------------------------------------------

  const THIRTY_SIX: Tuple := [IntElem(36)]

  // The frames its bytes are cut into: the element falls apart.
  const HEADER: Bytes := [TYPE_OPERATION_MSG, OP_LINDA_WRITE, 1 as char, 0 as char, 0 as char, 0 as char]
  const HEAD: Bytes := [TYPE_TUPLE_ELEM, ELEM_INT]
  const TAIL: Bytes := [0 as char, 0 as char, 0 as char]

  lemma ThirtySixBytes(ft: FloatText)
    ensures Serialize(ft, OperationMessage(OP_LINDA_WRITE, 1)) == HEADER
    ensures Serialize(ft, TupleElemMessage(IntElem(36))) == HEAD + [TERM] + TAIL
  {
    assert Encode(1, 4) == [1 as char, 0 as char, 0 as char, 0 as char];
    assert Encode(36, 4) == [36 as char, 0 as char, 0 as char, 0 as char];
  }

  lemma ThirtySixIsCut(ft: FloatText)
    ensures Split([], Wire(ft, TupleMessages(OP_LINDA_WRITE, THIRTY_SIX))) == Stream([HEADER, HEAD, TAIL], [])
  {
    var first, second := OperationMessage(OP_LINDA_WRITE, 1), TupleElemMessage(IntElem(36));
    ThirtySixBytes(ft);
    assert TupleMessages(OP_LINDA_WRITE, THIRTY_SIX) == [first] + [second];
    WireAppend(ft, [first], [second]);
    WireOne(ft, first);
    WireOne(ft, second);
    FramingIsExact([HEADER, HEAD, TAIL]);
    JoinThree(HEADER, HEAD, TAIL);
  }

  lemma JoinThree(a: Bytes, b: Bytes, c: Bytes)
    ensures Join([a, b, c]) == a + [TERM] + (b + [TERM] + c + [TERM])
  {
    assert [a, b, c][1..] == [b, c] && [b, c][1..] == [c] && [c][1..] == [];
    assert Join([c]) == c + [TERM] + [];
    assert Join([b, c]) == b + [TERM] + c + [TERM];
  }

  // The two halves are no messages.
  lemma HalvesAreNotRead(ft: FloatText)
    ensures Decoded(ft, HEAD) == None && Decoded(ft, TAIL) == None
  {
    assert HEAD[1..] == [ELEM_INT] && [ELEM_INT][1..] == [];
    FirstTagIs(TAIL, 3);
  }

  lemma HeaderIsRead(ft: FloatText)
    ensures Decoded(ft, HEADER) == Some(OperationMessage(OP_LINDA_WRITE, 1))
  {
    ThirtySixBytes(ft);
    MessageRoundTrip(ft, OperationMessage(OP_LINDA_WRITE, 1), []);
    assert HEADER + [] == HEADER;
  }

  lemma DecodedThree(ft: FloatText, a: Bytes, b: Bytes, c: Bytes)
    ensures AllDecoded(ft, [a, b, c]) == [Decoded(ft, a), Decoded(ft, b), Decoded(ft, c)]
  {
    assert [a, b, c][1..] == [b, c] && [b, c][1..] == [c] && |[c][1..]| == 0;
    assert AllDecoded(ft, [c]) == [Decoded(ft, c)];
    assert AllDecoded(ft, [b, c]) == [Decoded(ft, b), Decoded(ft, c)];
  }

  lemma ThirtySixIsNotHeard(ft: FloatText)
    ensures var ms := AllDecoded(ft, [HEADER, HEAD, TAIL]); |ms| == 3 && Hear(ms).0 == TooFew
  {
    HeaderIsRead(ft);
    HalvesAreNotRead(ft);
    DecodedThree(ft, HEADER, HEAD, TAIL);
    WriteStarves(Decoded(ft, HEADER));
  }

  lemma WriteStarves(m: Option<Message>)
    requires m == Some(OperationMessage(OP_LINDA_WRITE, 1))
    ensures Hear([m, None, None]).0 == TooFew
  {
    NothingIn([None, None]);
    assert [m, None, None][1..] == [None, None];
  }

  lemma NothingIn(ms: seq<Option<Message>>)
    requires ms == [None, None]
    ensures NextRead(ms) == (None, [])
  {
    assert ms[1..] == [None] && ms[1..][1..] == [];
  }

  /** A written 36 contains the terminator: however its bytes are cut and whatever the others would do,
      the thread starves in the middle of the write, nothing is stored and nothing is sent. */
  method LoseThirtySix(ft: FloatText, thread: ServiceThread, others: seq<Turn>) returns (status: Status)
    requires thread.Valid() && thread.messageBuffer.maxSize == BUFFER_SIZE
    requires thread.messageBuffer.Contents() == NO_BYTES
    requires thread.fifoRead.bytes == Wire(ft, TupleMessages(OP_LINDA_WRITE, THIRTY_SIX))
    modifies thread.database, thread.database.Waiters(), thread.awaiting
    modifies thread.fifoRead, thread.fifoWrite, thread.messageBuffer
    ensures status == Starved
    ensures thread.database.Abstract() == old(thread.database.Abstract())
    ensures thread.fifoWrite.bytes == old(thread.fifoWrite.bytes)
  {
    ThirtySixIsCut(ft);
    ThirtySixIsNotHeard(ft);
    assert [] + [HEADER, HEAD, TAIL] == [HEADER, HEAD, TAIL];
    ghost var sent;
    status, sent := thread.MainLoop(ft, others);
    assert thread.fifoWrite.bytes == old(thread.fifoWrite.bytes) + [];
  }
}
