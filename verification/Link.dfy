/** Sending and receiving over a pipe (linda_common.hpp, linda_common.cpp). */
module Link {
  import opened Types
  import opened Seqs
  import opened Framing
  import opened Numbers
  import opened Codec
  import opened Terminator

  // A pipe delivers its bytes in order, at most PIPE_READ_SIZE of them in one read.
  class Pipe {
    var bytes: Bytes

    constructor ()
      ensures bytes == []
    {
      bytes := [];
    }

    method Write(s: Bytes)
      modifies this
      ensures bytes == old(bytes) + s
    {
      bytes := bytes + s;
    }

    // read(2) blocks while there is nothing to read; otherwise it may return any prefix.
    method Read() returns (chunk: Bytes)
      requires bytes != []
      modifies this
      ensures chunk != [] && |chunk| <= PIPE_READ_SIZE && old(bytes) == chunk + bytes
    {
      var n :| 1 <= n <= |bytes| && n <= PIPE_READ_SIZE;
      chunk := bytes[..n];
      bytes := bytes[n..];
    }
  }

  // ---- Receiving one message ---------------------------------------------------------

  // fetchMessageFromBuffer: a frame that cannot be read is dropped.
  function Fetch(ft: FloatText, b: Buffer): Option<Message> {
    if b.queue == [] then None
    else
      match Deserialize(ft, b.queue[0])
      case Done(m, _) => Some(m)
      case Failed(_) => None
  }

  // What a receive loop that reads these chunks leaves behind; `lost` is what the buffer refused.
  datatype Polled = Polled(message: Option<Message>, buffer: Buffer, unread: seq<Bytes>, lost: Bytes)

  function Poll(ft: FloatText, b: Buffer, chunks: seq<Bytes>, maxSize: nat): Polled
    decreases |chunks|
  {
    var b1 := Pop(b);
    if Fetch(ft, b).Some? then Polled(Fetch(ft, b), b1, chunks, [])
    else if chunks == [] then Polled(None, b1, [], [])
    else
      var r := Poll(ft, Push(b1, chunks[0], maxSize), chunks[1..], maxSize);
      if Accepts(b1, maxSize) then r else r.(lost := chunks[0] + r.lost)
  }

  // The frames that are queued or will be once the bytes s have been read.
  function Pending(b: Buffer, s: Bytes): Stream {
    var r := Split(b.partial, s);
    Stream(b.queue + r.frames, r.partial)
  }

  lemma PushKeepsPending(b: Buffer, chunk: Bytes, s: Bytes, maxSize: nat)
    requires Accepts(b, maxSize)
    ensures Pending(Push(b, chunk, maxSize), s) == Pending(b, chunk + s)
  {
    SplitAppend(b.partial, chunk, s);
    var r := Split(b.partial, chunk);
    Assoc(b.queue, r.frames, Split(r.partial, s).frames);
  }

  // What a frame holds; None if it cannot be read.
  function Decoded(ft: FloatText, frame: Bytes): Option<Message> {
    match Deserialize(ft, frame)
    case Done(m, _) => Some(m)
    case Failed(_) => None
  }

  function AllDecoded(ft: FloatText, frames: seq<Bytes>): (ms: seq<Option<Message>>)
    ensures |ms| == |frames|
  {
    if frames == [] then [] else [Decoded(ft, frames[0])] + AllDecoded(ft, frames[1..])
  }

  lemma {:induction false} DecodedAt(ft: FloatText, frames: seq<Bytes>, i: nat)
    requires i < |frames|
    ensures AllDecoded(ft, frames)[i] == Decoded(ft, frames[i])
  {
    if i > 0 {
      DecodedAt(ft, frames[1..], i - 1);
    }
  }

  // What is to come out of a stream: its frames as messages, and an unfinished frame.
  datatype Feed = Feed(messages: seq<Option<Message>>, partial: Bytes)

  function FeedOf(ft: FloatText, p: Stream): Feed {
    Feed(AllDecoded(ft, p.frames), p.partial)
  }

  // The first message, and what is behind it; frames that cannot be read are skipped.
  function NextRead(ms: seq<Option<Message>>): (r: (Option<Message>, seq<Option<Message>>))
    ensures |r.1| <= |ms| && (r.0.Some? ==> |r.1| < |ms|)
  {
    if ms == [] then (None, [])
    else if ms[0].Some? then (ms[0], ms[1..])
    else NextRead(ms[1..])
  }

  lemma {:induction false} NextReadIsSuffix(ms: seq<Option<Message>>)
    ensures Suffix(NextRead(ms).1, ms)
  {
    if ms != [] && ms[0].None? {
      NextReadIsSuffix(ms[1..]);
    }
  }

  predicate Suffix<T(==)>(left: seq<T>, all: seq<T>) {
    |left| <= |all| && left == all[|all| - |left|..]
  }

  // `left` is what remains when some frames that cannot be read have been dropped.
  predicate Dropped(ms: seq<Option<Message>>, left: seq<Option<Message>>) {
    Suffix(left, ms) && forall i :: 0 <= i < |ms| - |left| ==> ms[i] == None
  }

  // Receiving one message took the feed from p to q. It may block with messages still to come.
  predicate Arrived(p: Feed, message: Option<Message>, q: Feed) {
    && q.partial == p.partial
    && (message.Some? ==> NextRead(p.messages) == (message, q.messages))
    && (message.None? ==> Dropped(p.messages, q.messages))
  }

  // With this to come no byte is refused.
  predicate Safe(ms: seq<Option<Message>>, maxSize: nat) {
    ms == [] || ms[0].Some? || |ms| <= maxSize
  }

  lemma DropFirst(p: Feed, message: Option<Message>, q: Feed)
    requires p.messages != [] && p.messages[0] == None
    requires Arrived(Feed(p.messages[1..], p.partial), message, q)
    ensures Arrived(p, message, q)
  {
    if message.None? {
      forall i | 0 <= i < |p.messages| - |q.messages| ensures p.messages[i] == None {
        assert i > 0 ==> p.messages[1..][i - 1] == p.messages[i];
      }
    }
  }

  lemma PopKeepsTheRest(b: Buffer, s: Bytes)
    requires b.queue != []
    ensures var p := Pending(b, s);
      p.frames != [] && p.frames[0] == b.queue[0] && Pending(Pop(b), s) == Stream(p.frames[1..], p.partial)
  {
    var frames := Split(b.partial, s).frames;
    assert b.queue == [b.queue[0]] + b.queue[1..];
    assert ([b.queue[0]] + b.queue[1..] + frames)[1..] == b.queue[1..] + frames;
  }

  // What has been polled when the chunks are used up or a message is found.
  ghost predicate Followed(p: Feed, r: Polled, q: Feed) {
    && r.lost == []
    && Arrived(p, r.message, q)
    && (r.message.None? ==> r.unread == [])
    && (r.message.None? && (p.messages == [] || p.messages[0].Some?) ==> r.buffer.queue == [])
  }

  /** As long as the next frame can be read, or no more frames are to come than the buffer holds,
      polling refuses no byte. It delivers the first message of the stream if it delivers one, and
      otherwise has dropped frames that cannot be read and nothing else. */
  lemma {:induction false} PollFollowsStream(ft: FloatText, b: Buffer, chunks: seq<Bytes>, s: Bytes, maxSize: nat)
    requires maxSize > 0 && Safe(AllDecoded(ft, Pending(b, Concat(chunks) + s).frames), maxSize)
    ensures var r := Poll(ft, b, chunks, maxSize);
      Followed(FeedOf(ft, Pending(b, Concat(chunks) + s)), r, FeedOf(ft, Pending(r.buffer, Concat(r.unread) + s)))
    decreases |chunks|
  {
    var all := Concat(chunks) + s;
    var p := FeedOf(ft, Pending(b, all));
    if b.queue != [] {
      PopKeepsTheRest(b, all);
      assert p.messages[0] == Decoded(ft, b.queue[0]);
      assert Feed(p.messages[1..], p.partial) == FeedOf(ft, Pending(Pop(b), all));
    }
    if Fetch(ft, b).None? && chunks != [] {
      PollOn(ft, b, chunks, s, maxSize);
      PollFollowsStream(ft, Push(Pop(b), chunks[0], maxSize), chunks[1..], s, maxSize);
    }
    if Fetch(ft, b).None? && b.queue != [] {
      var r := Poll(ft, b, chunks, maxSize);
      DropFirst(p, r.message, FeedOf(ft, Pending(r.buffer, Concat(r.unread) + s)));
    }
  }

  // Nothing was fetched, and the next chunk enters.
  lemma PollOn(ft: FloatText, b: Buffer, chunks: seq<Bytes>, s: Bytes, maxSize: nat)
    requires maxSize > 0 && chunks != [] && Fetch(ft, b).None?
    requires Safe(AllDecoded(ft, Pending(b, Concat(chunks) + s).frames), maxSize)
    ensures Accepts(Pop(b), maxSize)
    ensures Pending(Push(Pop(b), chunks[0], maxSize), Concat(chunks[1..]) + s) == Pending(Pop(b), Concat(chunks) + s)
    ensures Safe(AllDecoded(ft, Pending(Pop(b), Concat(chunks) + s).frames), maxSize)
  {
    var all := Concat(chunks) + s;
    if b.queue != [] {
      PopKeepsTheRest(b, all);
    }
    Assoc(chunks[0], Concat(chunks[1..]), s);
    PushKeepsPending(Pop(b), chunks[0], Concat(chunks[1..]) + s, maxSize);
  }

  /** If the next frame of the stream can be read, polling delivers it however the bytes are cut,
      refuses none of them, and leaves the rest of the stream; if there is no frame, it blocks. */
  lemma PollIgnoresChunking(ft: FloatText, b: Buffer, chunks: seq<Bytes>, s: Bytes, maxSize: nat)
    requires maxSize > 0
    requires var p := Pending(b, Concat(chunks) + s); p.frames == [] || Reads(ft, p.frames[0])
    ensures var p, r := Pending(b, Concat(chunks) + s), Poll(ft, b, chunks, maxSize);
      && r.lost == []
      && (r.message.Some? ==>
            && p.frames != [] && r.message == Decoded(ft, p.frames[0])
            && FeedOf(ft, Pending(r.buffer, Concat(r.unread) + s)) == FeedOf(ft, Stream(p.frames[1..], p.partial)))
      && (r.message.None? ==>
            && r.unread == [] && r.buffer.queue == []
            && FeedOf(ft, Pending(r.buffer, s)) == FeedOf(ft, p))
  {
    PollFollowsStream(ft, b, chunks, s, maxSize);
    assert Concat([]) + s == s;
  }

  method FetchMessageFromBuffer(ft: FloatText, buffer: MessageBuffer) returns (message: Option<Message>)
    requires buffer.Valid()
    modifies buffer
    ensures buffer.Valid() && (message.Some? ==> Resendable(ft, message.value))
    ensures message == Fetch(ft, old(buffer.Contents())) && buffer.Contents() == Pop(old(buffer.Contents()))
  {
    var bytes := buffer.PopMessage();
    if bytes.None? {
      return None;
    }
    if Reads(ft, bytes.value) {
      ReadIsResendable(ft, bytes.value);
    }
    var reader := new Reader(bytes.value);
    var received := reader.DeserializeMessage(ft);
    message := if received.Ok? then Some(received.value) else None;
  }

  // Receiving goes on for as long as this allows at most.
  function Unserved(b: Buffer, s: Bytes): nat {
    |b.queue| + |s|
  }

  lemma PushServesNoMore(b: Buffer, chunk: Bytes, s: Bytes, maxSize: nat)
    ensures Unserved(Push(b, chunk, maxSize), s) <= Unserved(b, chunk + s)
  {
    SplitCount(b.partial, chunk);
    TerminatorsBound(chunk);
  }

  // Returns None where the code blocks in read(2).
  method ReadFromPipeUntilMessageFound(ft: FloatText, buffer: MessageBuffer, pipe: Pipe)
    returns (message: Option<Message>, ghost chunks: seq<Bytes>, ghost lost: Bytes)
    requires buffer.Valid()
    modifies buffer, pipe
    ensures buffer.Valid() && (message.Some? ==> Resendable(ft, message.value))
    ensures Poll(ft, old(buffer.Contents()), chunks, buffer.maxSize) == Polled(message, buffer.Contents(), [], lost)
    ensures old(pipe.bytes) == Concat(chunks) + pipe.bytes
    ensures forall c :: c in chunks ==> c != [] && |c| <= PIPE_READ_SIZE
    ensures message.None? ==> pipe.bytes == []
    ensures Unserved(buffer.Contents(), pipe.bytes) <= old(Unserved(buffer.Contents(), pipe.bytes))
    ensures message.Some? ==> Unserved(buffer.Contents(), pipe.bytes) < old(Unserved(buffer.Contents(), pipe.bytes))
  {
    ghost var b0 := buffer.Contents();
    chunks, lost := [], [];
    PollsStart(ft, b0, buffer.maxSize);
    while true
      invariant buffer.Valid() && old(pipe.bytes) == Concat(chunks) + pipe.bytes
      invariant forall c :: c in chunks ==> c != [] && |c| <= PIPE_READ_SIZE
      invariant PollsOn(ft, b0, chunks, buffer.Contents(), lost, buffer.maxSize)
      invariant Unserved(buffer.Contents(), pipe.bytes) <= old(Unserved(buffer.Contents(), pipe.bytes))
      decreases |pipe.bytes|
    {
      ghost var b := buffer.Contents();
      message := FetchMessageFromBuffer(ft, buffer);
      if message.Some? || pipe.bytes == [] {
        PollsDone(ft, b0, chunks, b, lost, buffer.maxSize);
        return;
      }
      var chunk := pipe.Read();
      PollsOnce(ft, b0, chunks, b, lost, buffer.maxSize, chunk);
      ConcatOne(chunks, chunk);
      Assoc(Concat(chunks), chunk, pipe.bytes);
      lost := if Accepts(buffer.Contents(), buffer.maxSize) then lost else lost + chunk;
      chunks := chunks + [chunk];
      PushServesNoMore(buffer.Contents(), chunk, pipe.bytes, buffer.maxSize);
      var accepted := buffer.PushBytes(chunk);
    }
  }

  // Polling from b0 has read these chunks and lost these bytes, and goes on from b.
  ghost predicate PollsOn(ft: FloatText, b0: Buffer, chunks: seq<Bytes>, b: Buffer, lost: Bytes, maxSize: nat) {
    forall more :: Poll(ft, b0, chunks + more, maxSize) ==
      var r := Poll(ft, b, more, maxSize); r.(lost := lost + r.lost)
  }

  lemma PollsStart(ft: FloatText, b: Buffer, maxSize: nat)
    ensures PollsOn(ft, b, [], b, [], maxSize)
  {
    forall more
      ensures Poll(ft, b, [] + more, maxSize) == var r := Poll(ft, b, more, maxSize); r.(lost := [] + r.lost)
    {
      assert [] + more == more && [] + Poll(ft, b, more, maxSize).lost == Poll(ft, b, more, maxSize).lost;
    }
  }

  lemma PollsDone(ft: FloatText, b0: Buffer, chunks: seq<Bytes>, b: Buffer, lost: Bytes, maxSize: nat)
    requires PollsOn(ft, b0, chunks, b, lost, maxSize)
    ensures Poll(ft, b0, chunks, maxSize) == Polled(Fetch(ft, b), Pop(b), [], lost)
  {
    assert chunks + [] == chunks && lost + [] == lost;
    assert Poll(ft, b0, chunks + [], maxSize).unread == Poll(ft, b, [], maxSize).unread;
  }

  lemma PollsOnce(ft: FloatText, b0: Buffer, chunks: seq<Bytes>, b: Buffer, lost: Bytes, maxSize: nat, chunk: Bytes)
    requires PollsOn(ft, b0, chunks, b, lost, maxSize) && Fetch(ft, b).None?
    ensures PollsOn(ft, b0, chunks + [chunk], Push(Pop(b), chunk, maxSize),
                    if Accepts(Pop(b), maxSize) then lost else lost + chunk, maxSize)
  {
    forall more
      ensures Poll(ft, b0, chunks + [chunk] + more, maxSize) ==
              var r := Poll(ft, Push(Pop(b), chunk, maxSize), more, maxSize);
              r.(lost := (if Accepts(Pop(b), maxSize) then lost else lost + chunk) + r.lost)
    {
      Assoc(chunks, [chunk], more);
      assert ([chunk] + more)[0] == chunk && ([chunk] + more)[1..] == more;
      assert Poll(ft, b0, chunks + ([chunk] + more), maxSize).message == Poll(ft, b, [chunk] + more, maxSize).message;
      Assoc(lost, chunk, Poll(ft, Push(Pop(b), chunk, maxSize), more, maxSize).lost);
    }
  }

  lemma {:induction false} ConcatOne(chunks: seq<Bytes>, chunk: Bytes)
    ensures Concat(chunks + [chunk]) == Concat(chunks) + chunk
  {
    if chunks == [] {
      assert [chunk][1..] == [] && chunk + [] == chunk && [] + chunk == chunk;
      assert chunks + [chunk] == [chunk];
    } else {
      assert (chunks + [chunk])[0] == chunks[0] && (chunks + [chunk])[1..] == chunks[1..] + [chunk];
      ConcatOne(chunks[1..], chunk);
      Assoc(chunks[0], Concat(chunks[1..]), chunk);
    }
  }

  // ---- Sending -----------------------------------------------------------------------

  function Frames(ft: FloatText, ms: seq<Message>): (fs: seq<Bytes>)
    ensures |fs| == |ms|
  {
    if ms == [] then [] else [Serialize(ft, ms[0])] + Frames(ft, ms[1..])
  }

  lemma {:induction false} FrameAt(ft: FloatText, ms: seq<Message>, i: nat)
    requires i < |ms|
    ensures Frames(ft, ms)[i] == Serialize(ft, ms[i])
  {
    if i > 0 {
      FrameAt(ft, ms[1..], i - 1);
      assert Frames(ft, ms)[i] == Frames(ft, ms[1..])[i - 1];
    }
  }

  // The bytes on the wire for a list of messages.
  function Wire(ft: FloatText, ms: seq<Message>): Bytes {
    Join(Frames(ft, ms))
  }

  function ElemMessages(t: Tuple): (ms: seq<Message>)
    ensures |ms| == |t| && forall i :: 0 <= i < |t| ==> ms[i] == TupleElemMessage(t[i])
  {
    if t == [] then [] else [TupleElemMessage(t[0])] + ElemMessages(t[1..])
  }

  function PatternMessages(ps: seq<Pattern>): (ms: seq<Message>)
    ensures |ms| == |ps| && forall i :: 0 <= i < |ps| ==> ms[i] == PatternMessage(ps[i])
  {
    if ps == [] then [] else [PatternMessage(ps[0])] + PatternMessages(ps[1..])
  }

  lemma {:induction false} FramesAppend(ft: FloatText, ms: seq<Message>, ns: seq<Message>)
    ensures Frames(ft, ms + ns) == Frames(ft, ms) + Frames(ft, ns)
  {
    if ms == [] {
      assert ms + ns == ns && Frames(ft, ms) + Frames(ft, ns) == Frames(ft, ns);
    } else {
      assert (ms + ns)[0] == ms[0] && (ms + ns)[1..] == ms[1..] + ns;
      FramesAppend(ft, ms[1..], ns);
      Assoc([Serialize(ft, ms[0])], Frames(ft, ms[1..]), Frames(ft, ns));
    }
  }

  lemma WireAppend(ft: FloatText, ms: seq<Message>, ns: seq<Message>)
    ensures Wire(ft, ms + ns) == Wire(ft, ms) + Wire(ft, ns)
  {
    FramesAppend(ft, ms, ns);
    JoinAppend(Frames(ft, ms), Frames(ft, ns));
  }

  lemma WireOne(ft: FloatText, m: Message)
    ensures Wire(ft, [m]) == Serialize(ft, m) + [TERM]
  {
    var bytes := Serialize(ft, m);
    assert Frames(ft, [m]) == [bytes] && Join([bytes][1..]) == [];
    var sent: Bytes := bytes + [TERM];
    assert sent + [] == sent;
  }

  method SendMessage(ft: FloatText, m: Message, pipe: Pipe)
    modifies pipe
    ensures pipe.bytes == old(pipe.bytes) + Wire(ft, [m])
  {
    var bytes := SerializeMessage(ft, m);
    bytes := bytes + [TERM];
    WireOne(ft, m);
    pipe.Write(bytes);
  }

  // What sendTuple and sendPattern send.
  function TupleMessages(opType: Byte, tuple: Tuple): seq<Message> {
    [OperationMessage(opType, Low32(|tuple|))] + ElemMessages(tuple)
  }

  function RequestMessages(opType: Byte, pattern: seq<Pattern>): seq<Message> {
    [OperationMessage(opType, Low32(|pattern|))] + PatternMessages(pattern)
  }

  lemma WireNext(ft: FloatText, ms: seq<Message>, i: nat)
    requires i < |ms|
    ensures Wire(ft, ms[..i + 1]) == Wire(ft, ms[..i]) + Wire(ft, [ms[i]])
  {
    WireAppend(ft, ms[..i], [ms[i]]);
    assert ms[..i + 1] == ms[..i] + [ms[i]];
  }

  method SendTuple(ft: FloatText, opType: Byte, tuple: Tuple, pipe: Pipe)
    modifies pipe
    ensures pipe.bytes == old(pipe.bytes) + Wire(ft, TupleMessages(opType, tuple))
  {
    ghost var ms := TupleMessages(opType, tuple);
    SendMessage(ft, OperationMessage(opType, Low32(|tuple|)), pipe);
    assert ms[..1] == [ms[0]];
    for i := 0 to |tuple|
      invariant pipe.bytes == old(pipe.bytes) + Wire(ft, ms[..i + 1])
    {
      WireNext(ft, ms, i + 1);
      Assoc(old(pipe.bytes), Wire(ft, ms[..i + 1]), Wire(ft, [ms[i + 1]]));
      SendMessage(ft, TupleElemMessage(tuple[i]), pipe);
    }
    assert ms[..|tuple| + 1] == ms;
  }

  method SendPattern(ft: FloatText, opType: Byte, pattern: seq<Pattern>, pipe: Pipe)
    modifies pipe
    ensures pipe.bytes == old(pipe.bytes) + Wire(ft, RequestMessages(opType, pattern))
  {
    ghost var ms := RequestMessages(opType, pattern);
    SendMessage(ft, OperationMessage(opType, Low32(|pattern|)), pipe);
    assert ms[..1] == [ms[0]];
    for i := 0 to |pattern|
      invariant pipe.bytes == old(pipe.bytes) + Wire(ft, ms[..i + 1])
    {
      WireNext(ft, ms, i + 1);
      Assoc(old(pipe.bytes), Wire(ft, ms[..i + 1]), Wire(ft, [ms[i + 1]]));
      SendMessage(ft, PatternMessage(pattern[i]), pipe);
    }
    assert ms[..|pattern| + 1] == ms;
  }

  function Incoming(ft: FloatText, buffer: MessageBuffer, pipe: Pipe): Feed
    reads buffer, pipe
  {
    FeedOf(ft, Pending(buffer.Contents(), pipe.bytes))
  }

  lemma ArrivedByPolling(ft: FloatText, b: Buffer, all: Bytes, chunks: seq<Bytes>, s: Bytes,
                         message: Option<Message>, b1: Buffer, lost: Bytes, maxSize: nat)
    requires maxSize > 0 && all == Concat(chunks) + s && Safe(FeedOf(ft, Pending(b, all)).messages, maxSize)
    requires Poll(ft, b, chunks, maxSize) == Polled(message, b1, [], lost) && (message.None? ==> s == [])
    ensures var p := FeedOf(ft, Pending(b, all));
      && Arrived(p, message, FeedOf(ft, Pending(b1, s)))
      && (message.None? ==> p.messages == [] || p.messages[0].None?)
  {
    PollFollowsStream(ft, b, chunks, s, maxSize);
    assert Concat([]) + s == s;
    assert s == [] && b1.queue == [] ==> Pending(b1, s).frames == [];
  }

  // readFromPipeUntilMessageFound, seen as taking the next message from the stream.
  method NextMessage(ft: FloatText, buffer: MessageBuffer, pipe: Pipe) returns (message: Option<Message>)
    requires buffer.Valid() && buffer.maxSize > 0
    modifies buffer, pipe
    ensures buffer.Valid() && (message.Some? ==> Resendable(ft, message.value))
    ensures Unserved(buffer.Contents(), pipe.bytes) <= old(Unserved(buffer.Contents(), pipe.bytes))
    ensures message.Some? ==> Unserved(buffer.Contents(), pipe.bytes) < old(Unserved(buffer.Contents(), pipe.bytes))
    ensures var p := old(Incoming(ft, buffer, pipe));
      Safe(p.messages, buffer.maxSize) ==>
        && Arrived(p, message, Incoming(ft, buffer, pipe))
        && (message.None? ==> p.messages == [] || p.messages[0].None?)
  {
    ghost var b0, s0 := buffer.Contents(), pipe.bytes;
    ghost var chunks, lost;
    message, chunks, lost := ReadFromPipeUntilMessageFound(ft, buffer, pipe);
    if Safe(FeedOf(ft, Pending(b0, s0)).messages, buffer.maxSize) {
      ArrivedByPolling(ft, b0, s0, chunks, pipe.bytes, message, buffer.Contents(), lost, buffer.maxSize);
    }
  }
}
