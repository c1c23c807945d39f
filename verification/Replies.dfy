/** Which tuples can be sent as a reply, and why the database holds no others. */
module Replies {
  import opened Types
  import opened Numbers
  import opened TupleSpace
  import opened Framing
  import opened Codec
  import opened Terminator
  import opened Link
  import opened Receiving
  import opened Others

  // The number of elements is received as an int.
  predicate Replyable(ft: FloatText, x: Tuple) {
    |x| < 0x8000_0000 && AllClean(ft, TupleMessages(OP_RETURN_RESULT, x))
  }

  predicate AllReplyable(ft: FloatText, store: seq<Tuple>) {
    forall i :: 0 <= i < |store| ==> Replyable(ft, store[i])
  }

  lemma HeaderBytes(ft: FloatText, op: Byte, n: UInt32)
    ensures DollarFree(Serialize(ft, OperationMessage(op, n))) <==> op != TERM && DollarFree(Encode(n, SIZE_32))
  {
    assert Serialize(ft, OperationMessage(op, n)) == [TYPE_OPERATION_MSG, op] + Encode(n, SIZE_32);
  }

  lemma {:induction false} NoTerminatorIn(width: nat)
    ensures DollarFree(Encode(0, width))
  {
    if width > 0 {
      NoTerminatorIn(width - 1);
      assert Encode(0, width)[1..] == Encode(0, width - 1);
    }
  }

  lemma EmptyIsReplyable(ft: FloatText)
    ensures Replyable(ft, [])
  {
    NoTerminatorIn(SIZE_32);
  }

  /** What was received behind a header, as many elements as it says, can be sent back. */
  lemma ReceivedIsReplyable(ft: FloatText, size: UInt32, t: Tuple)
    requires DollarFree(Encode(size, SIZE_32)) && CleanTuple(ft, t)
    requires |t| == if ToSigned(size) < 0 then 0 else ToSigned(size)
    ensures Replyable(ft, t)
  {
    if t == [] {
      EmptyIsReplyable(ft);
    } else {
      assert Low32(|t|) == size;
    }
  }

  // The answer to a write needs no other bytes than the write.
  lemma WrittenIsReplyable(ft: FloatText, t: Tuple)
    requires |t| < 0x8000_0000 && AllClean(ft, TupleMessages(OP_LINDA_WRITE, t))
    ensures Replyable(ft, t)
  {
    var ms := TupleMessages(OP_LINDA_WRITE, t);
    assert Clean(ft, ms[0]);
    HeaderBytes(ft, OP_LINDA_WRITE, Low32(|t|));
    forall i | 0 <= i < |t| ensures Clean(ft, TupleElemMessage(t[i])) {
      assert ms[i + 1] == TupleElemMessage(t[i]) && Clean(ft, ms[i + 1]);
    }
  }

  // The others write what they have received themselves.
  predicate DeedOk(ft: FloatText, d: Deed) {
    match d
    case Offers(x) => Replyable(ft, x)
    case Stores(x) => Replyable(ft, x)
    case _ => true
  }

  predicate DeedsOk(ft: FloatText, deeds: seq<Deed>) {
    forall i :: 0 <= i < |deeds| ==> DeedOk(ft, deeds[i])
  }

  lemma {:induction false} DeedsKeepReplyable(ft: FloatText, s: Space, deeds: seq<Deed>)
    requires AllReplyable(ft, s.store) && DeedsOk(ft, deeds)
    ensures AllReplyable(ft, HappenAll(s, deeds).store)
    decreases |deeds|
  {
    if deeds != [] {
      assert DeedOk(ft, deeds[0]);
      DeedsKeepReplyable(ft, Happen(s, deeds[0]), deeds[1..]);
    }
  }

  predicate TurnOk(ft: FloatText, turn: Turn) {
    DeedsOk(ft, turn.between) && DeedsOk(ft, turn.after)
  }

  lemma AroundIsReplyable(ft: FloatText, s: Space, cmd: Command, between: seq<Deed>)
    requires AllReplyable(ft, s.store) && DeedsOk(ft, between) && (cmd.Write? ==> Replyable(ft, cmd.tuple))
    ensures var (s1, answer) := PerformAround(s, cmd, between);
      AllReplyable(ft, s1.store) && (answer.Some? ==> Replyable(ft, answer.value))
  {
    EmptyIsReplyable(ft);
    DeedsKeepReplyable(ft, Begin(s, cmd).0, between);
  }

  /** The database keeps only tuples that can be sent, and so does whoever passes one on. */
  lemma AnswersAreReplyable(ft: FloatText, s: Space, cmd: Command, turn: Turn)
    requires AllReplyable(ft, s.store) && TurnOk(ft, turn) && (cmd.Write? ==> Replyable(ft, cmd.tuple))
    ensures var (s1, answer) := PerformAmong(s, cmd, turn);
      AllReplyable(ft, s1.store) && (answer.Some? ==> Replyable(ft, answer.value))
  {
    var (s1, answer) := PerformAround(s, cmd, turn.between);
    AroundIsReplyable(ft, s, cmd, turn.between);
    DeedsKeepReplyable(ft, s1, turn.after);
    if answer.None? {
      WokenIsMatched(s1, |s1.waiting| - 1, turn.after);
      var pl := MoveAll(s1, Newest(s1), turn.after);
      if pl.Passed? {
        var i :| 0 <= i < |turn.after| && turn.after[i] == Offers(pl.tuple);
        assert DeedOk(ft, turn.after[i]);
      }
    }
  }
}
