/** Which messages the terminator leaves whole, and what is known of a message read from a frame. */
module Terminator {
  import opened Types
  import opened Numbers
  import opened Framing
  import opened Codec

  // The message arrives unchanged: no terminator in it, and a pattern is rebuilt from its text.
  predicate Clean(ft: FloatText, m: Message) {
    Survives(ft, m) && DollarFree(Serialize(ft, m))
  }

  predicate AllClean(ft: FloatText, ms: seq<Message>) {
    forall i :: 0 <= i < |ms| ==> Clean(ft, ms[i])
  }

  lemma CleanIsRead(ft: FloatText, m: Message)
    requires Clean(ft, m)
    ensures Deserialize(ft, Serialize(ft, m)) == Done(m, [])
  {
    MessageRoundTrip(ft, m, []);
    assert Serialize(ft, m) + [] == Serialize(ft, m);
  }

  // The message arrives, a pattern as it is rebuilt from its text.
  predicate Reaches(ft: FloatText, m: Message) {
    WellFormed(ft, m) && Received(ft, m).Ok? && DollarFree(Serialize(ft, m))
  }

  predicate AllReach(ft: FloatText, ms: seq<Message>) {
    forall i :: 0 <= i < |ms| ==> Reaches(ft, ms[i])
  }

  function ReachedAs(ft: FloatText, m: Message): Message {
    if Received(ft, m).Ok? then Received(ft, m).value else m
  }

  function AllReachedAs(ft: FloatText, ms: seq<Message>): (rs: seq<Message>)
    ensures |rs| == |ms| && forall i :: 0 <= i < |ms| ==> rs[i] == ReachedAs(ft, ms[i])
  {
    if ms == [] then [] else [ReachedAs(ft, ms[0])] + AllReachedAs(ft, ms[1..])
  }

  // What arrives unchanged arrives.
  lemma CleanReaches(ft: FloatText, ms: seq<Message>)
    requires AllClean(ft, ms)
    ensures AllReach(ft, ms) && AllReachedAs(ft, ms) == ms
  {
    forall i | 0 <= i < |ms| ensures Reaches(ft, ms[i]) && ReachedAs(ft, ms[i]) == ms[i] {
      assert Clean(ft, ms[i]);
    }
  }

  lemma ReadOperationInverse(s: Bytes)
    requires ReadOperation(s).Done?
    ensures ReadOperation(s).value.OperationMessage?
    ensures var r := ReadOperation(s); s == [r.value.opType] + Encode(r.value.tupleSize, SIZE_32) + r.rest
  {
    ReadNumberInverse(s[1..], SIZE_32);
    assert s == [s[0]] + s[1..];
  }

  // A header read from a frame without terminator has none itself.
  lemma HeaderIsPlain(ft: FloatText, frame: Bytes)
    requires DollarFree(frame) && Reads(ft, frame) && Deserialize(ft, frame).value.OperationMessage?
    ensures DollarFree(Encode(Deserialize(ft, frame).value.tupleSize, SIZE_32))
  {
    var k := FirstTag(frame);
    ReadOperationInverse(frame[k + 1..]);
    PartIsPlain(frame, k + 1, [Deserialize(ft, frame).value.opType],
                Encode(Deserialize(ft, frame).value.tupleSize, SIZE_32), Deserialize(ft, frame).rest);
  }

  lemma PartIsPlain(s: Bytes, k: nat, a: Bytes, b: Bytes, c: Bytes)
    requires DollarFree(s) && k <= |s| && s[k..] == a + b + c
    ensures DollarFree(b)
  {
    forall i | 0 <= i < |b| ensures b[i] != TERM {
      assert s[k + |a| + i] == s[k..][|a| + i] == b[i];
    }
  }

  // An element read from a frame without terminator is clean.
  lemma ElemIsClean(ft: FloatText, frame: Bytes)
    requires DollarFree(frame) && Reads(ft, frame) && Deserialize(ft, frame).value.TupleElemMessage?
    ensures Clean(ft, Deserialize(ft, frame).value)
  {
    var prefix := ReadElementsWereSent(ft, frame);
    var m := Deserialize(ft, frame).value;
    assert frame[0..] == frame;
    PartIsPlain(frame, 0, prefix, Serialize(ft, m), Deserialize(ft, frame).rest);
  }

  // What was received can be sent back without a terminator in it.
  predicate Resendable(ft: FloatText, m: Message) {
    && (m.OperationMessage? ==> DollarFree(Encode(m.tupleSize, SIZE_32)))
    && (m.TupleElemMessage? ==> Clean(ft, m))
  }

  /** The header numbers and elements that are read from a frame can be sent back. */
  lemma ReadIsResendable(ft: FloatText, frame: Bytes)
    requires DollarFree(frame) && Reads(ft, frame)
    ensures Resendable(ft, Deserialize(ft, frame).value)
  {
    var m := Deserialize(ft, frame).value;
    if m.OperationMessage? {
      HeaderIsPlain(ft, frame);
    } else if m.TupleElemMessage? {
      ElemIsClean(ft, frame);
    }
  }
}
