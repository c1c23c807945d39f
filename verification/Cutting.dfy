/** How the cutting of a stream into chunks shows: when a full buffer refuses bytes, and when it
    matters to what is delivered (message_buffer.cpp, linda_common.cpp). */
module Cutting {
  import opened Types
  import opened Seqs
  import opened Framing
  import opened Codec
  import opened Terminator
  import opened Link

  // ---- When bytes are refused --------------------------------------------------------

  function Less(n: nat): nat {
    if n == 0 then 0 else n - 1
  }

  // The frames waiting when chunk k enters, of n before the first: every chunk adds its terminators,
  // and before each one a frame is taken.
  function Backlog(n: nat, chunks: seq<Bytes>, k: nat): nat
    requires k <= |chunks|
    decreases k
  {
    if k == 0 then Less(n) else Backlog(Less(n) + Terminators(chunks[0]), chunks[1..], k - 1)
  }

  predicate NoneEmpty(chunks: seq<Bytes>) {
    forall k :: 0 <= k < |chunks| ==> chunks[k] != []
  }

  // There is room at each of the first m reads.
  predicate HasRoom(n: nat, chunks: seq<Bytes>, m: nat, maxSize: nat)
    requires m <= |chunks|
  {
    forall k :: 0 <= k < m ==> Backlog(n, chunks, k) < maxSize
  }

  lemma HasRoomFirst(n: nat, chunks: seq<Bytes>, m: nat, maxSize: nat)
    requires 0 < m <= |chunks|
    ensures HasRoom(n, chunks, m, maxSize) <==>
            Less(n) < maxSize && HasRoom(Less(n) + Terminators(chunks[0]), chunks[1..], m - 1, maxSize)
  {
    var n1 := Less(n) + Terminators(chunks[0]);
    assert Backlog(n, chunks, 0) == Less(n);
    forall k | 0 <= k < m - 1 ensures Backlog(n1, chunks[1..], k) == Backlog(n, chunks, k + 1) {
    }
    if Less(n) < maxSize && HasRoom(n1, chunks[1..], m - 1, maxSize) {
      forall k | 0 <= k < m ensures Backlog(n, chunks, k) < maxSize {
        assert k > 0 ==> Backlog(n1, chunks[1..], k - 1) < maxSize;
      }
    }
  }

  /** Polling refuses no byte just when fewer than maxSize frames are waiting at each of its reads,
      counted by terminators alone. */
  lemma {:induction false} LosesNothingIff(ft: FloatText, b: Buffer, chunks: seq<Bytes>, maxSize: nat)
    requires NoneEmpty(chunks)
    ensures var r := Poll(ft, b, chunks, maxSize);
      && |r.unread| <= |chunks|
      && (r.lost == [] <==> HasRoom(|b.queue|, chunks, |chunks| - |r.unread|, maxSize))
    decreases |chunks|
  {
    if Fetch(ft, b).None? && chunks != [] {
      var next := Push(Pop(b), chunks[0], maxSize);
      var r := Poll(ft, next, chunks[1..], maxSize);
      LosesNothingIff(ft, next, chunks[1..], maxSize);
      HasRoomFirst(|b.queue|, chunks, |chunks| - |r.unread|, maxSize);
      PollNext(ft, b, chunks, maxSize);
      PushedSize(Pop(b), chunks[0], maxSize);
    }
  }

  // What the first chunk adds.
  lemma PollNext(ft: FloatText, b: Buffer, chunks: seq<Bytes>, maxSize: nat)
    requires NoneEmpty(chunks) && Fetch(ft, b).None? && chunks != []
    ensures var all := Poll(ft, b, chunks, maxSize);
      var r := Poll(ft, Push(Pop(b), chunks[0], maxSize), chunks[1..], maxSize);
      all.unread == r.unread && (all.lost == [] <==> Less(|b.queue|) < maxSize && r.lost == [])
  {
    var r := Poll(ft, Push(Pop(b), chunks[0], maxSize), chunks[1..], maxSize);
    assert chunks[0] + r.lost != [];
  }

  lemma PushedSize(b: Buffer, chunk: Bytes, maxSize: nat)
    ensures |Push(b, chunk, maxSize).queue| == |b.queue| + if |b.queue| < maxSize then Terminators(chunk) else 0
  {
    SplitCount(b.partial, chunk);
  }

  // The chunks up to k are the first one and those behind it.
  lemma PrefixConcat(chunks: seq<Bytes>, k: nat)
    requires 0 < k <= |chunks|
    ensures Concat(chunks[..k]) == chunks[0] + Concat(chunks[1..][..k - 1])
    ensures Terminators(Concat(chunks[..k])) == Terminators(chunks[0]) + Terminators(Concat(chunks[1..][..k - 1]))
  {
    assert chunks[..k][1..] == chunks[1..][..k - 1];
  }

  lemma {:induction false} BacklogBound(n: nat, chunks: seq<Bytes>, k: nat)
    requires k <= |chunks|
    ensures Backlog(n, chunks, k) <= Less(n + Terminators(Concat(chunks[..k])))
    decreases k
  {
    if k > 0 {
      BacklogBound(Less(n) + Terminators(chunks[0]), chunks[1..], k - 1);
      PrefixConcat(chunks, k);
    }
  }

  // ---- All cuttings of a stream ------------------------------------------------------

  // read(2) may deliver the bytes s in these chunks.
  predicate Cuts(chunks: seq<Bytes>, s: Bytes) {
    && Concat(chunks) == s
    && forall k :: 0 <= k < |chunks| ==> 0 < |chunks[k]| <= PIPE_READ_SIZE
  }

  // A receive loop starts without bytes and goes on until they are used up.
  function Receipt(ft: FloatText, chunks: seq<Bytes>): Polled {
    Poll(ft, NO_BYTES, chunks, BUFFER_SIZE)
  }

  function FramesOf(s: Bytes): seq<Bytes> {
    Split([], s).frames
  }

  function MessagesOf(ft: FloatText, s: Bytes): seq<Option<Message>> {
    AllDecoded(ft, FramesOf(s))
  }

  lemma FeedOfAll(ft: FloatText, s: Bytes)
    ensures FeedOf(ft, Pending(NO_BYTES, s)).messages == MessagesOf(ft, s)
  {
    assert [] + FramesOf(s) == FramesOf(s);
  }

  lemma {:induction false} ConcatAppend(a: seq<Bytes>, b: seq<Bytes>)
    ensures Concat(a + b) == Concat(a) + Concat(b)
  {
    if a == [] {
      assert a + b == b;
    } else {
      assert (a + b)[0] == a[0] && (a + b)[1..] == a[1..] + b;
      ConcatAppend(a[1..], b);
      Assoc(a[0], Concat(a[1..]), Concat(b));
    }
  }

  // Before a chunk enters, not all bytes have been read.
  lemma FewerAreRead(chunks: seq<Bytes>, s: Bytes, k: nat)
    requires Cuts(chunks, s) && k < |chunks|
    ensures s != [] && Terminators(Concat(chunks[..k])) <= Terminators(s[..|s| - 1])
  {
    var before, after := Concat(chunks[..k]), Concat(chunks[k..]);
    assert chunks == chunks[..k] + chunks[k..];
    ConcatAppend(chunks[..k], chunks[k..]);
    assert chunks[k..][0] == chunks[k] && s == before + after && after != [];
    assert s[..|s| - 1] == before + after[..|after| - 1];
  }

  lemma ConcatSingle(chunk: Bytes)
    ensures Concat([chunk]) == chunk
  {
    var none: seq<Bytes> := [chunk][1..];
    assert none == [] && chunk + [] == chunk;
  }

  // Two chunks: all bytes but the last one, and the last one.
  function LastApart(s: Bytes): seq<Bytes>
    requires |s| > 1
  {
    [s[..|s| - 1], s[|s| - 1..]]
  }

  lemma LastApartCuts(s: Bytes)
    requires 1 < |s| <= PIPE_READ_SIZE
    ensures Cuts(LastApart(s), s)
  {
    var chunks := LastApart(s);
    assert chunks[1..] == [s[|s| - 1..]];
    ConcatSingle(s[|s| - 1..]);
    assert s[|s| - 1..] + [] == s[|s| - 1..] && s[..|s| - 1] + s[|s| - 1..] == s;
  }

  // The frames of all bytes but the last are the first frames of all.
  lemma FirstFrames(s: Bytes)
    requires s != []
    ensures |FramesOf(s[..|s| - 1])| == Terminators(s[..|s| - 1]) && FramesOf(s[..|s| - 1]) <= FramesOf(s)
  {
    var init, last := s[..|s| - 1], s[|s| - 1..];
    assert s == init + last;
    SplitAppend([], init, last);
    SplitCount([], init);
  }

  lemma LastApartLoses(ft: FloatText, s: Bytes)
    requires 1 < |s| <= PIPE_READ_SIZE && Terminators(s[..|s| - 1]) > BUFFER_SIZE && !FirstReads(ft, s)
    ensures Receipt(ft, LastApart(s)).lost != []
  {
    var init, last := s[..|s| - 1], s[|s| - 1..];
    FirstFrames(s);
    var b := Push(NO_BYTES, init, BUFFER_SIZE);
    assert b.queue == FramesOf(init);
    assert LastApart(s)[1..] == [last];
    assert Fetch(ft, b).None?;
    assert Poll(ft, b, [last], BUFFER_SIZE).lost == last + Poll(ft, Pop(b), [], BUFFER_SIZE).lost;
  }

  predicate FirstReads(ft: FloatText, s: Bytes) {
    FramesOf(s) != [] && Reads(ft, FramesOf(s)[0])
  }

  /** Of at most 512 bytes none is refused, however they are cut, just when the first frame can be read
      or no more than 100 frames end before the last byte. */
  lemma NoCuttingLosesBytes(ft: FloatText, s: Bytes)
    requires 0 < |s| <= PIPE_READ_SIZE
    ensures (forall chunks :: Cuts(chunks, s) ==> Receipt(ft, chunks).lost == []) <==>
            FirstReads(ft, s) || Terminators(s[..|s| - 1]) <= BUFFER_SIZE
  {
    if FirstReads(ft, s) {
      forall chunks | Cuts(chunks, s) ensures Receipt(ft, chunks).lost == [] {
        FirstIsDelivered(ft, s, chunks);
      }
    } else if Terminators(s[..|s| - 1]) <= BUFFER_SIZE {
      forall chunks | Cuts(chunks, s) ensures Receipt(ft, chunks).lost == [] {
        FewEndBefore(ft, s, chunks);
      }
    } else {
      TerminatorsBound(s[..|s| - 1]);
      FirstFrames(s);
      LastApartCuts(s);
      LastApartLoses(ft, s);
    }
  }

  lemma FewEndBefore(ft: FloatText, s: Bytes, chunks: seq<Bytes>)
    requires Cuts(chunks, s) && s != [] && Terminators(s[..|s| - 1]) <= BUFFER_SIZE
    ensures Receipt(ft, chunks).lost == []
  {
    LosesNothingIff(ft, NO_BYTES, chunks, BUFFER_SIZE);
    forall k | 0 <= k < |chunks| ensures Backlog(|NO_BYTES.queue|, chunks, k) < BUFFER_SIZE {
      BacklogBound(0, chunks, k);
      FewerAreRead(chunks, s, k);
    }
  }

  lemma FirstIsDelivered(ft: FloatText, s: Bytes, chunks: seq<Bytes>)
    requires Cuts(chunks, s) && FirstReads(ft, s)
    ensures var r := Receipt(ft, chunks); r.lost == [] && r.message == Decoded(ft, FramesOf(s)[0])
  {
    assert Concat(chunks) + [] == s && [] + FramesOf(s) == FramesOf(s);
    PollIgnoresChunking(ft, NO_BYTES, chunks, [], BUFFER_SIZE);
    assert Receipt(ft, chunks).message.None? ==> |FeedOf(ft, Pending(NO_BYTES, s)).messages| == 0;
  }

  /** Frames that cannot be read cost bytes: behind 512 bare terminators a whole chunk is refused. */
  lemma UnreadableFramesLoseBytes(ft: FloatText, chunk: Bytes)
    ensures Receipt(ft, [seq(PIPE_READ_SIZE, _ => TERM), chunk]).lost == chunk
  {
    BareTerminators(PIPE_READ_SIZE);
    var bare: Bytes := seq(PIPE_READ_SIZE, _ => TERM);
    var b1 := Push(NO_BYTES, bare, BUFFER_SIZE);
    assert [] + EmptyFrames(PIPE_READ_SIZE) == EmptyFrames(PIPE_READ_SIZE);
    assert b1.queue == EmptyFrames(PIPE_READ_SIZE);
    assert [bare, chunk][1..] == [chunk] && [chunk][1..] == [];
    assert Fetch(ft, b1) == None && Fetch(ft, Pop(b1)) == None;
    assert Poll(ft, b1, [chunk], BUFFER_SIZE).lost == chunk + Poll(ft, Pop(b1), [], BUFFER_SIZE).lost;
    assert chunk + [] == chunk;
  }

  function EmptyFrames(n: nat): seq<Bytes> {
    seq(n, _ => [])
  }

  lemma {:induction false} BareTerminators(n: nat)
    ensures Split([], seq(n, _ => TERM)) == Stream(EmptyFrames(n), [])
  {
    if n > 0 {
      BareTerminators(n - 1);
      assert seq(n, _ => TERM)[1..] == seq(n - 1, _ => TERM);
      var none: Bytes := [];
      assert [none] + EmptyFrames(n - 1) == EmptyFrames(n);
    }
  }

  // ---- When the cutting matters ------------------------------------------------------

  // What is delivered without loss is the first message of the stream.
  lemma {:induction false} LosslessIsFirst(ft: FloatText, b: Buffer, chunks: seq<Bytes>, maxSize: nat)
    requires NoneEmpty(chunks) && Poll(ft, b, chunks, maxSize).lost == []
    ensures var r := Poll(ft, b, chunks, maxSize);
      r.message.Some? ==> r.message == NextRead(FeedOf(ft, Pending(b, Concat(chunks))).messages).0
    decreases |chunks|
  {
    var all := Concat(chunks);
    if b.queue != [] {
      PopKeepsTheRest(b, all);
      assert FeedOf(ft, Pending(b, all)).messages[1..] == FeedOf(ft, Pending(Pop(b), all)).messages;
    }
    if Fetch(ft, b).None? && chunks != [] {
      PushKeepsPending(Pop(b), chunks[0], Concat(chunks[1..]), maxSize);
      LosslessIsFirst(ft, Push(Pop(b), chunks[0], maxSize), chunks[1..], maxSize);
    }
  }

  // ---- What a cutting delivers -------------------------------------------------------

  // With n frames waiting a frame is taken and the chunk enters, if there is room.
  function Waiting(n: nat, chunk: Bytes, maxSize: nat): nat {
    Less(n) + if Less(n) < maxSize then Terminators(chunk) else 0
  }

  // The bytes that enter the buffer, counted by terminators, as long as no frame is delivered.
  function Entering(n: nat, chunks: seq<Bytes>, maxSize: nat): Bytes
    decreases |chunks|
  {
    if chunks == [] then []
    else (if Less(n) < maxSize then chunks[0] else []) + Entering(Waiting(n, chunks[0], maxSize), chunks[1..], maxSize)
  }

  // How many frames are taken.
  function TakenFrames(n: nat, chunks: seq<Bytes>, maxSize: nat): nat
    decreases |chunks|
  {
    (n - Less(n)) + if chunks == [] then 0 else TakenFrames(Waiting(n, chunks[0], maxSize), chunks[1..], maxSize)
  }

  // The frames queued, and those that the bytes complete.
  function FramesIn(b: Buffer, s: Bytes): seq<Bytes> {
    b.queue + Split(b.partial, s).frames
  }

  lemma EnteringChunk(b: Buffer, chunk: Bytes, s: Bytes, maxSize: nat)
    ensures FramesIn(b, (if |b.queue| < maxSize then chunk else []) + s) == FramesIn(Push(b, chunk, maxSize), s)
    ensures |Push(b, chunk, maxSize).queue| == |b.queue| + if |b.queue| < maxSize then Terminators(chunk) else 0
  {
    PushedSize(b, chunk, maxSize);
    if Accepts(b, maxSize) {
      PushKeepsPending(b, chunk, s, maxSize);
    } else {
      assert [] + s == s;
    }
  }

  // The queue's first frame is taken first.
  lemma TakenFirst(ft: FloatText, b: Buffer, s: Bytes, k: nat)
    requires b.queue != [] && k < |FramesIn(b, s)|
    ensures AllDecoded(ft, FramesIn(b, s)[..k + 1]) ==
            [Decoded(ft, b.queue[0])] + AllDecoded(ft, FramesIn(Pop(b), s)[..k])
  {
    var frames := FramesIn(b, s);
    assert frames[1..] == FramesIn(Pop(b), s);
    assert frames[..k + 1][0] == b.queue[0] && frames[..k + 1][1..] == frames[1..][..k];
  }

  // Of the frames in b, k are taken, and the message is the first of them that can be read.
  predicate Yields(ft: FloatText, b: Buffer, s: Bytes, k: nat, message: Option<Message>) {
    k <= |FramesIn(b, s)| && message == NextRead(AllDecoded(ft, FramesIn(b, s)[..k])).0
  }

  // A frame is taken; behind it, the rest of the buffer yields more.
  lemma YieldsFirst(ft: FloatText, b: Buffer, s: Bytes, k: nat, more: Option<Message>)
    requires b.queue != [] && Yields(ft, Pop(b), s, k, more)
    ensures Yields(ft, b, s, k + 1, if Fetch(ft, b).Some? then Fetch(ft, b) else more)
  {
    assert FramesIn(b, s)[1..] == FramesIn(Pop(b), s);
    TakenFirst(ft, b, s, k);
    var first, rest := Decoded(ft, b.queue[0]), AllDecoded(ft, FramesIn(Pop(b), s)[..k]);
    assert ([first] + rest)[1..] == rest;
  }

  // Behind the first frame the chunk enters, if there is room.
  lemma {:induction false} YieldsNext(ft: FloatText, b: Buffer, chunks: seq<Bytes>, maxSize: nat)
    requires chunks != []
    ensures var n1 := Waiting(|b.queue|, chunks[0], maxSize);
      Yields(ft, Pop(b), Entering(|b.queue|, chunks, maxSize), TakenFrames(n1, chunks[1..], maxSize),
             Poll(ft, Push(Pop(b), chunks[0], maxSize), chunks[1..], maxSize).message)
    decreases |chunks|, 0
  {
    var b2 := Push(Pop(b), chunks[0], maxSize);
    EnteringChunk(Pop(b), chunks[0], Entering(|b2.queue|, chunks[1..], maxSize), maxSize);
    PollDelivers(ft, b2, chunks[1..], maxSize);
  }

  /** Whatever the chunks, the message that is delivered is the first that can be read among the
      frames taken of the bytes that entered; both are found by counting terminators. */
  lemma {:induction false} PollDelivers(ft: FloatText, b: Buffer, chunks: seq<Bytes>, maxSize: nat)
    ensures Yields(ft, b, Entering(|b.queue|, chunks, maxSize), TakenFrames(|b.queue|, chunks, maxSize),
                   Poll(ft, b, chunks, maxSize).message)
    decreases |chunks|, 1
  {
    var s, k := Entering(|b.queue|, chunks, maxSize), TakenFrames(|b.queue|, chunks, maxSize);
    if chunks != [] {
      YieldsNext(ft, b, chunks, maxSize);
    }
    if b.queue != [] {
      var more := if chunks == [] then None
                  else Poll(ft, Push(Pop(b), chunks[0], maxSize), chunks[1..], maxSize).message;
      YieldsFirst(ft, b, s, k - 1, more);
    }
  }

  // Some frame that is taken can be read.
  predicate TakesReadable(ft: FloatText, chunks: seq<Bytes>) {
    var frames, k := FramesOf(Entering(0, chunks, BUFFER_SIZE)), TakenFrames(0, chunks, BUFFER_SIZE);
    exists i :: 0 <= i < k && i < |frames| && Reads(ft, frames[i])
  }

  lemma SomeDecoded(ft: FloatText, frames: seq<Bytes>)
    ensures NextRead(AllDecoded(ft, frames)).0.Some? <==> exists i :: 0 <= i < |frames| && Reads(ft, frames[i])
  {
    NextReadFinds(AllDecoded(ft, frames));
    forall i | 0 <= i < |frames| ensures AllDecoded(ft, frames)[i] == Decoded(ft, frames[i]) {
      DecodedAt(ft, frames, i);
    }
  }

  /** A cutting delivers a message exactly if a frame that is taken can be read, whatever can be read
      of the stream itself. */
  lemma CuttingDeliversIff(ft: FloatText, chunks: seq<Bytes>)
    ensures Receipt(ft, chunks).message.Some? <==> TakesReadable(ft, chunks)
  {
    var s, k := Entering(0, chunks, BUFFER_SIZE), TakenFrames(0, chunks, BUFFER_SIZE);
    PollDelivers(ft, NO_BYTES, chunks, BUFFER_SIZE);
    assert FramesIn(NO_BYTES, s) == FramesOf(s);
    var taken := FramesOf(s)[..k];
    SomeDecoded(ft, taken);
    assert forall i :: 0 <= i < k ==> taken[i] == FramesOf(s)[i];
  }

  // One byte at a time.
  function Singles(s: Bytes): seq<Bytes> {
    if s == [] then [] else [[s[0]]] + Singles(s[1..])
  }

  lemma {:induction false} SinglesCut(s: Bytes)
    ensures Cuts(Singles(s), s)
  {
    if s != [] {
      SinglesCut(s[1..]);
      assert Singles(s)[1..] == Singles(s[1..]);
      assert [s[0]] + s[1..] == s;
    }
  }

  // One byte completes at most one frame, and it is fetched before the next byte is read.
  lemma {:induction false} SinglesDeliverFirst(ft: FloatText, b: Buffer, s: Bytes)
    requires b.queue == []
    ensures Poll(ft, b, Singles(s), BUFFER_SIZE).message == NextRead(AllDecoded(ft, Split(b.partial, s).frames)).0
    decreases |s|
  {
    if s != [] {
      var partial, cs := b.partial, Singles(s[1..]);
      assert Singles(s)[0] == [s[0]] && Singles(s)[1..] == cs && [s[0]][1..] == [];
      if s[0] == TERM {
        SinglesDeliverFirst(ft, NO_BYTES, s[1..]);
        assert Split(partial, [s[0]]) == Stream([partial], []) && [] + [partial] == [partial];
        assert Push(b, [s[0]], BUFFER_SIZE) == Buffer([partial], []);
        var frames := Split([], s[1..]).frames;
        assert ([partial] + frames)[1..] == frames;
      } else {
        SinglesDeliverFirst(ft, Buffer([], partial + [s[0]]), s[1..]);
        assert Split(partial, [s[0]]) == Stream([], partial + [s[0]]) && b.queue + [] == [];
        assert Push(b, [s[0]], BUFFER_SIZE) == Buffer([], partial + [s[0]]);
      }
    }
  }

  // In one chunk only the first frame is fetched.
  lemma OneChunk(ft: FloatText, s: Bytes)
    requires s != []
    ensures Receipt(ft, [s]).message == if FirstReads(ft, s) then Decoded(ft, FramesOf(s)[0]) else None
  {
    var b := Push(NO_BYTES, s, BUFFER_SIZE);
    assert [s][1..] == [] && [] + FramesOf(s) == FramesOf(s);
    assert Receipt(ft, [s]).message == Poll(ft, b, [], BUFFER_SIZE).message == Fetch(ft, b);
  }

  predicate SomeReads(ft: FloatText, s: Bytes) {
    exists i :: 0 <= i < |FramesOf(s)| && Reads(ft, FramesOf(s)[i])
  }

  lemma {:induction false} NextReadFinds(ms: seq<Option<Message>>)
    ensures NextRead(ms).0.Some? <==> exists i :: 0 <= i < |ms| && ms[i].Some?
  {
    if ms != [] && ms[0].None? {
      NextReadFinds(ms[1..]);
      if i :| 0 <= i < |ms| && ms[i].Some? {
        assert ms[1..][i - 1].Some?;
      }
    }
  }

  lemma SomeReadsIsFound(ft: FloatText, s: Bytes)
    ensures SomeReads(ft, s) <==> NextRead(MessagesOf(ft, s)).0.Some?
  {
    SomeDecoded(ft, FramesOf(s));
  }

  // However the bytes are cut, the same message is delivered, or none.
  ghost predicate SameForAllCuttings(ft: FloatText, s: Bytes) {
    forall a, b :: Cuts(a, s) && Cuts(b, s) ==> Receipt(ft, a).message == Receipt(ft, b).message
  }

  lemma Differs(ft: FloatText, s: Bytes, a: seq<Bytes>, b: seq<Bytes>)
    requires Cuts(a, s) && Cuts(b, s) && Receipt(ft, a).message != Receipt(ft, b).message
    ensures !SameForAllCuttings(ft, s)
  {
  }

  /** Of at most 512 bytes with a frame that can be read, every cutting delivers the same message just
      when that is the first frame. With no such frame, just when no cutting splices one together;
      none does unless bytes are lost. */
  lemma CuttingDoesNotMatterIff(ft: FloatText, s: Bytes)
    requires 0 < |s| <= PIPE_READ_SIZE
    ensures SomeReads(ft, s) ==> (SameForAllCuttings(ft, s) <==> FirstReads(ft, s))
    ensures !SomeReads(ft, s) ==> (SameForAllCuttings(ft, s) <==> NoneSplices(ft, s))
    ensures !SomeReads(ft, s) && Terminators(s[..|s| - 1]) <= BUFFER_SIZE ==> NoneSplices(ft, s)
  {
    SomeReadsIsFound(ft, s);
    if FirstReads(ft, s) {
      forall a, b | Cuts(a, s) && Cuts(b, s) ensures Receipt(ft, a).message == Receipt(ft, b).message {
        FirstIsDelivered(ft, s, a);
        FirstIsDelivered(ft, s, b);
      }
    } else if SomeReads(ft, s) {
      OneChunk(ft, s);
      SinglesCut(s);
      SinglesDeliverFirst(ft, NO_BYTES, s);
      Differs(ft, s, [s], Singles(s));
    } else {
      SameIfNoneSplices(ft, s);
      if Terminators(s[..|s| - 1]) <= BUFFER_SIZE {
        forall a | Cuts(a, s) ensures !TakesReadable(ft, a) {
          NothingIsDelivered(ft, s, a);
          CuttingDeliversIff(ft, a);
        }
      }
    }
  }

  // No cutting makes a frame that can be read.
  ghost predicate NoneSplices(ft: FloatText, s: Bytes) {
    forall a :: Cuts(a, s) ==> !TakesReadable(ft, a)
  }

  // In one chunk nothing is delivered, so it is the same for all only if none delivers anything.
  lemma SameIfNoneSplices(ft: FloatText, s: Bytes)
    requires 0 < |s| <= PIPE_READ_SIZE && !SomeReads(ft, s)
    ensures SameForAllCuttings(ft, s) <==> NoneSplices(ft, s)
  {
    ConcatSingle(s);
    assert Cuts([s], s);
    OneChunk(ft, s);
    forall a ensures Receipt(ft, a).message.Some? <==> TakesReadable(ft, a) {
      CuttingDeliversIff(ft, a);
    }
  }

  lemma NothingIsDelivered(ft: FloatText, s: Bytes, chunks: seq<Bytes>)
    requires Cuts(chunks, s) && s != [] && Terminators(s[..|s| - 1]) <= BUFFER_SIZE && !SomeReads(ft, s)
    ensures Receipt(ft, chunks).message == None
  {
    FewEndBefore(ft, s, chunks);
    SomeReadsIsFound(ft, s);
    FeedOfAll(ft, s);
    LosslessIsFirst(ft, NO_BYTES, chunks, BUFFER_SIZE);
  }

  lemma FrameOfOne(frame: Bytes)
    requires DollarFree(frame)
    ensures Split([], frame + [TERM]) == Stream([frame], [])
    ensures Split([], [TERM] + (frame + [TERM])) == Stream([[], frame], [])
  {
    SplitPlain([], frame);
    SplitAppend([], frame, [TERM]);
    var none: Bytes := [];
    assert [TERM][1..] == none && none + frame == frame;
    assert ([TERM] + (frame + [TERM]))[1..] == frame + [TERM];
    assert [none] + [frame] == [none, frame];
  }

  lemma OneOrTwoChunks(ft: FloatText, frame: Bytes, wire: Bytes)
    requires Split([], wire) == Stream([frame], []) && Split([], [TERM] + wire) == Stream([[], frame], [])
    requires Reads(ft, frame) && !Reads(ft, [])
    ensures Receipt(ft, [[TERM] + wire]) == Polled(None, Buffer([frame], []), [], [])
    ensures Receipt(ft, [[TERM], wire]) == Polled(Decoded(ft, frame), NO_BYTES, [], [])
  {
    var none: Bytes := [];
    FrameOfOne(none);
    assert none + [TERM] == [TERM];
    PollOne(ft, [TERM] + wire, [none, frame], []);
    assert [none, frame][1..] == [frame] && [[TERM] + wire] + [] == [[TERM] + wire];
    PollOne(ft, [TERM], [none], [wire]);
    assert [[TERM]] + [wire] == [[TERM], wire];
    PollOne(ft, wire, [frame], []);
    assert [wire] + [] == [wire] && [frame][1..] == [];
  }

  /** Behind a frame that cannot be read the cutting does matter: of the same bytes, one chunk leaves
      the message in the queue while the thread waits for more, and two chunks deliver it. */
  lemma UnreadableFrameDelays(ft: FloatText, m: Message)
    requires Clean(ft, m)
    ensures Receipt(ft, [[TERM] + Wire(ft, [m])]) == Polled(None, Buffer([Serialize(ft, m)], []), [], [])
    ensures Receipt(ft, [[TERM], Wire(ft, [m])]) == Polled(Some(m), NO_BYTES, [], [])
  {
    WireOne(ft, m);
    CleanIsRead(ft, m);
    FrameOfOne(Serialize(ft, m));
    OneOrTwoChunks(ft, Serialize(ft, m), Wire(ft, [m]));
  }

  // One chunk enters the empty buffer and completes these frames.
  lemma PollOne(ft: FloatText, chunk: Bytes, frames: seq<Bytes>, more: seq<Bytes>)
    requires Split([], chunk) == Stream(frames, []) && frames != []
    ensures Receipt(ft, [chunk] + more) ==
            if Reads(ft, frames[0])
            then Polled(Decoded(ft, frames[0]), Buffer(frames[1..], []), more, [])
            else Poll(ft, Buffer(frames, []), more, BUFFER_SIZE)
  {
    var b := Buffer(frames, []);
    assert ([chunk] + more)[1..] == more && [] + frames == frames;
    assert Push(NO_BYTES, chunk, BUFFER_SIZE) == b;
    assert Receipt(ft, [chunk] + more) == Poll(ft, b, more, BUFFER_SIZE);
  }

  // ---- A frame spliced together ------------------------------------------------------

  const ODD: Byte := 7 as char

  // No element type has this number, so no element can be read here.
  function Broken(frame: Bytes): Bytes
    requires frame != []
  {
    [frame[0], ODD] + frame[1..]
  }

  // Bytes that complete no frame, one at a time.
  function Idle(n: nat): seq<Bytes> {
    seq(n, _ => [ODD])
  }

  lemma {:induction false} IdleIsPlain(n: nat)
    ensures |Concat(Idle(n))| == n && DollarFree(Concat(Idle(n)))
  {
    if n > 0 {
      IdleIsPlain(n - 1);
      assert Idle(n)[1..] == Idle(n - 1);
    }
  }

  // Each byte read makes room for one frame less.
  lemma {:induction false} BehindEmptyFrames(ft: FloatText, n: nat, frame: Bytes, partial: Bytes)
    requires n < BUFFER_SIZE && Reads(ft, frame)
    ensures Poll(ft, Buffer(EmptyFrames(n) + [frame], partial), Idle(n), BUFFER_SIZE).message == Decoded(ft, frame)
  {
    var b := Buffer(EmptyFrames(n) + [frame], partial);
    if n > 0 {
      assert b.queue[0] == [] && b.queue[1..] == EmptyFrames(n - 1) + [frame];
      assert Fetch(ft, b).None?;
      SplitPlain(partial, [ODD]);
      assert b.queue[1..] + [] == b.queue[1..];
      assert Push(Pop(b), [ODD], BUFFER_SIZE) == Buffer(EmptyFrames(n - 1) + [frame], partial + [ODD]);
      assert Idle(n)[0] == [ODD] && Idle(n)[1..] == Idle(n - 1);
      BehindEmptyFrames(ft, n - 1, frame, partial + [ODD]);
    }
  }

  // 101 bare terminators and the first byte of the frame; a byte that is refused; the rest of the frame.
  function SplicedChunks(frame: Bytes): seq<Bytes>
    requires frame != []
  {
    [seq(101, _ => TERM) + [frame[0]], [ODD], frame[1..] + [TERM]] + Idle(99)
  }

  lemma SplicedBytes(frame: Bytes, more: seq<Bytes>)
    requires frame != []
    ensures var bare: Bytes := seq(101, _ => TERM);
      Concat([bare + [frame[0]], [ODD], frame[1..] + [TERM]] + more)
      == bare + (Broken(frame) + ([TERM] + Concat(more)))
  {
    var bare: Bytes := seq(101, _ => TERM);
    ConcatAppend([bare + [frame[0]], [ODD], frame[1..] + [TERM]], more);
    var three := [bare + [frame[0]], [ODD], frame[1..] + [TERM]];
    assert three[1..] == [[ODD], frame[1..] + [TERM]];
    assert [[ODD], frame[1..] + [TERM]][1..] == [frame[1..] + [TERM]];
    ConcatSingle(frame[1..] + [TERM]);
    assert Concat(three) == bare + [frame[0]] + ([ODD] + (frame[1..] + [TERM]));
  }

  lemma FramesBehindBare(n: nat, frame: Bytes, rest: Bytes)
    requires DollarFree(frame) && DollarFree(rest)
    ensures FramesOf(seq(n, _ => TERM) + (frame + ([TERM] + rest))) == EmptyFrames(n) + [frame]
  {
    BareTerminators(n);
    SplitAppend([], seq(n, _ => TERM), frame + ([TERM] + rest));
    SplitPlain([], frame);
    SplitAppend([], frame, [TERM] + rest);
    SplitPlain([], rest);
    assert ([TERM] + rest)[1..] == rest && [] + frame == frame;
    assert Split(frame, [TERM] + rest).frames == [frame] + [];
    assert Split([], frame + ([TERM] + rest)).frames == [] + [frame];
  }

  lemma SplicedStream(frame: Bytes)
    requires frame != [] && DollarFree(frame)
    ensures var s := Concat(SplicedChunks(frame));
      |s| == 202 + |frame| && FramesOf(s) == EmptyFrames(101) + [Broken(frame)]
  {
    IdleIsPlain(99);
    SplicedBytes(frame, Idle(99));
    assert DollarFree(Broken(frame));
    FramesBehindBare(101, Broken(frame), Concat(Idle(99)));
  }

  lemma SplicedIsPolled(ft: FloatText, frame: Bytes)
    requires frame != [] && DollarFree(frame) && Reads(ft, frame) && !Reads(ft, [])
    ensures Receipt(ft, SplicedChunks(frame)).message == Decoded(ft, frame)
  {
    var cs := SplicedChunks(frame);
    var bare: Bytes := seq(101, _ => TERM);
    BareTerminators(101);
    SplitPlain([], [frame[0]]);
    SplitAppend([], bare, [frame[0]]);
    var b1 := Buffer(EmptyFrames(101), [frame[0]]);
    assert Push(NO_BYTES, cs[0], BUFFER_SIZE) == b1;
    var b2 := Pop(b1);
    assert b2.queue == EmptyFrames(100) && Pop(b2).queue == EmptyFrames(99);
    assert Push(b2, [ODD], BUFFER_SIZE) == b2;
    SplitPlain([frame[0]], frame[1..]);
    SplitAppend([frame[0]], frame[1..], [TERM]);
    assert [TERM][1..] == [] && [frame[0]] + frame[1..] == frame;
    var b3 := Buffer(EmptyFrames(99) + [frame], []);
    assert Push(Pop(b2), cs[2], BUFFER_SIZE) == b3;
    assert cs[1..][0] == [ODD] && cs[1..][1..][0] == cs[2] && cs[1..][1..][1..] == Idle(99);
    BehindEmptyFrames(ft, 99, frame, []);
    assert Receipt(ft, cs).message == Poll(ft, b1, cs[1..], BUFFER_SIZE).message;
    assert Poll(ft, b1, cs[1..], BUFFER_SIZE).message == Poll(ft, b2, cs[1..][1..], BUFFER_SIZE).message;
    assert Poll(ft, b2, cs[1..][1..], BUFFER_SIZE).message == Poll(ft, b3, Idle(99), BUFFER_SIZE).message;
  }

  lemma BrokenIsUnreadable(ft: FloatText, e: TupleElem)
    ensures var frame := Serialize(ft, TupleElemMessage(e)); frame != [] && !Reads(ft, Broken(frame))
  {
    var s := Broken(Serialize(ft, TupleElemMessage(e)));
    assert IsTag(s[0]) && FirstTag(s) == 0 && s[1..][0] == ODD;
  }

  lemma SplicedIsUnreadable(ft: FloatText, frame: Bytes)
    requires frame != [] && DollarFree(frame) && !Reads(ft, Broken(frame))
    ensures !SomeReads(ft, Concat(SplicedChunks(frame)))
  {
    SplicedStream(frame);
    assert !Reads(ft, []);
  }

  lemma SplicedIsCut(frame: Bytes)
    requires frame != [] && DollarFree(frame) && |frame| <= 310
    ensures var s := Concat(SplicedChunks(frame)); |s| <= PIPE_READ_SIZE && Cuts(SplicedChunks(frame), s)
  {
    SplicedStream(frame);
  }

  /** A full buffer can splice a message together: of this stream no frame can be read, and with the one
      byte refused that spoils it the element is delivered all the same. */
  lemma SplicedElementIsDelivered(ft: FloatText, e: TupleElem) returns (chunks: seq<Bytes>)
    requires Clean(ft, TupleElemMessage(e)) && |Serialize(ft, TupleElemMessage(e))| <= 310
    ensures |Concat(chunks)| <= PIPE_READ_SIZE && Cuts(chunks, Concat(chunks))
    ensures !SomeReads(ft, Concat(chunks)) && Receipt(ft, chunks).message == Some(TupleElemMessage(e))
  {
    var m := TupleElemMessage(e);
    var frame := Serialize(ft, m);
    BrokenIsUnreadable(ft, e);
    CleanIsRead(ft, m);
    SplicedIsCut(frame);
    SplicedIsUnreadable(ft, frame);
    SplicedIsPolled(ft, frame);
    chunks := SplicedChunks(frame);
  }
}
