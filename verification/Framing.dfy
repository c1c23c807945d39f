/** Messages cut out of a byte stream at the terminator (message_buffer.hpp, message_buffer.cpp). */
module Framing {
  import opened Types
  import opened Seqs

  datatype Stream = Stream(frames: seq<Bytes>, partial: Bytes)

  // The frames that s completes behind the bytes `partial` of an unfinished one.
  function Split(partial: Bytes, s: Bytes): Stream
    decreases |s|
  {
    if s == [] then Stream([], partial)
    else if s[0] == TERM then
      var r := Split([], s[1..]);
      Stream([partial] + r.frames, r.partial)
    else Split(partial + [s[0]], s[1..])
  }

  predicate DollarFree(s: Bytes) {
    TERM !in s
  }

  predicate AllPlain(frames: seq<Bytes>) {
    forall i :: 0 <= i < |frames| ==> DollarFree(frames[i])
  }

  function Join(frames: seq<Bytes>): Bytes {
    if frames == [] then [] else frames[0] + [TERM] + Join(frames[1..])
  }

  function Concat(chunks: seq<Bytes>): Bytes {
    if chunks == [] then [] else chunks[0] + Concat(chunks[1..])
  }

  lemma {:induction false} SplitAppend(partial: Bytes, a: Bytes, b: Bytes)
    ensures var x := Split(partial, a); var y := Split(x.partial, b);
      Split(partial, a + b) == Stream(x.frames + y.frames, y.partial)
    decreases |a|
  {
    if a == [] {
      assert a + b == b;
    } else {
      assert (a + b)[0] == a[0] && (a + b)[1..] == a[1..] + b;
      if a[0] == TERM {
        SplitAppend([], a[1..], b);
        var x := Split([], a[1..]);
        Assoc([partial], x.frames, Split(x.partial, b).frames);
      } else {
        SplitAppend(partial + [a[0]], a[1..], b);
      }
    }
  }

  lemma {:induction false} SplitPlain(partial: Bytes, s: Bytes)
    requires DollarFree(s)
    ensures Split(partial, s) == Stream([], partial + s)
    decreases |s|
  {
    if s == [] {
      assert partial + s == partial;
    } else {
      SplitPlain(partial + [s[0]], s[1..]);
      assert partial + s == (partial + [s[0]]) + s[1..];
    }
  }

  // Splitting loses no byte ...
  lemma {:induction false} SplitLosesNothing(partial: Bytes, s: Bytes)
    ensures Join(Split(partial, s).frames) + Split(partial, s).partial == partial + s
    decreases |s|
  {
    if s != [] {
      var t := s[1..];
      assert s == [s[0]] + t;
      if s[0] == TERM {
        SplitLosesNothing([], t);
        var r := Split([], t);
        assert ([partial] + r.frames)[1..] == r.frames;
        Assoc(partial + [TERM], Join(r.frames), r.partial);
        assert [] + t == t;
        Assoc(partial, [TERM], t);
      } else {
        SplitLosesNothing(partial + [s[0]], t);
        Assoc(partial, [s[0]], t);
      }
    }
  }

  // ... and leaves no terminator in a frame.
  lemma {:induction false} SplitFramesArePlain(partial: Bytes, s: Bytes)
    requires DollarFree(partial)
    ensures DollarFree(Split(partial, s).partial)
    ensures forall f :: f in Split(partial, s).frames ==> DollarFree(f)
    decreases |s|
  {
    if s != [] {
      SplitFramesArePlain(if s[0] == TERM then [] else partial + [s[0]], s[1..]);
    }
  }

  lemma {:induction false} SplitJoin(frames: seq<Bytes>, rest: Bytes)
    requires forall f :: f in frames ==> DollarFree(f)
    ensures Split([], Join(frames) + rest) == Stream(frames + Split([], rest).frames, Split([], rest).partial)
  {
    var tail := Split([], rest);
    if frames == [] {
      assert Join(frames) + rest == rest && frames + tail.frames == tail.frames;
    } else {
      var f, more := frames[0], Join(frames[1..]) + rest;
      SplitJoin(frames[1..], rest);
      Assoc(f + [TERM], Join(frames[1..]), rest);
      Assoc(f, [TERM], more);
      SplitPlain([], f);
      SplitAppend([], f, [TERM] + more);
      assert [] + f == f && ([TERM] + more)[1..] == more;
      assert frames == [f] + frames[1..];
      Assoc([f], frames[1..], tail.frames);
      assert [] + ([f] + Split([], more).frames) == [f] + Split([], more).frames;
    }
  }

  /** Framing is exact: terminated messages are cut apart again just when none of them holds the
      terminator. */
  lemma FramingIsExact(messages: seq<Bytes>)
    ensures Split([], Join(messages)) == Stream(messages, []) <==> forall m :: m in messages ==> DollarFree(m)
  {
    SplitFramesArePlain([], Join(messages));
    if forall m :: m in messages ==> DollarFree(m) {
      SplitJoin(messages, []);
      assert Join(messages) + [] == Join(messages) && messages + [] == messages;
    }
  }

  lemma {:induction false} JoinAppend(a: seq<Bytes>, b: seq<Bytes>)
    ensures Join(a + b) == Join(a) + Join(b)
  {
    if a == [] {
      assert a + b == b;
    } else {
      assert (a + b)[0] == a[0] && (a + b)[1..] == a[1..] + b;
      JoinAppend(a[1..], b);
      Assoc(a[0] + [TERM], Join(a[1..]), Join(b));
    }
  }

  // ---- The buffer --------------------------------------------------------------------

  datatype Buffer = Buffer(queue: seq<Bytes>, partial: Bytes)

  const NO_BYTES: Buffer := Buffer([], [])

  // A chunk enters only while the queue is shorter than maxSize, and then as a whole.
  predicate Accepts(b: Buffer, maxSize: nat) {
    |b.queue| < maxSize
  }

  function Push(b: Buffer, chunk: Bytes, maxSize: nat): Buffer {
    if Accepts(b, maxSize) then
      var r := Split(b.partial, chunk);
      Buffer(b.queue + r.frames, r.partial)
    else b
  }

  function Pop(b: Buffer): Buffer {
    if b.queue == [] then b else b.(queue := b.queue[1..])
  }

  class MessageBuffer {
    var queue: seq<Bytes>
    var msgBuffer: Bytes
    const maxSize: nat

    // No terminator is ever kept.
    ghost predicate Valid()
      reads this
    {
      AllPlain(queue) && DollarFree(msgBuffer)
    }

    constructor (maxSize: nat)
      ensures Valid() && this.maxSize == maxSize && Contents() == NO_BYTES
    {
      this.maxSize, queue, msgBuffer := maxSize, [], [];
    }

    function Contents(): Buffer
      reads this
    {
      Buffer(queue, msgBuffer)
    }

    method PushBytes(bytes: Bytes) returns (accepted: bool)
      requires Valid()
      modifies this
      ensures Valid() && accepted == Accepts(old(Contents()), maxSize)
      ensures Contents() == Push(old(Contents()), bytes, maxSize)
    {
      if |queue| < maxSize {
        var i := 0;
        while i != |bytes|
          invariant 0 <= i <= |bytes| && Valid()
          invariant queue + Split(msgBuffer, bytes[i..]).frames == old(queue) + Split(old(msgBuffer), bytes).frames
          invariant Split(msgBuffer, bytes[i..]).partial == Split(old(msgBuffer), bytes).partial
        {
          assert bytes[i..][0] == bytes[i] && bytes[i..][1..] == bytes[i + 1..];
          if bytes[i] == TERM {
            Assoc(queue, [msgBuffer], Split([], bytes[i + 1..]).frames);
            queue := queue + [msgBuffer];
            msgBuffer := [];
          } else {
            msgBuffer := msgBuffer + [bytes[i]];
          }
          i := i + 1;
        }
        assert queue + [] == queue;
        return true;
      }
      return false;
    }

    method PopMessage() returns (message: Option<Bytes>)
      requires Valid()
      modifies this
      ensures Valid() && (message.Some? ==> DollarFree(message.value))
      ensures Contents() == Pop(old(Contents()))
      ensures message == if old(queue) == [] then None else Some(old(queue)[0])
    {
      if queue == [] {
        return None;
      }
      message := Some(queue[0]);
      queue := queue[1..];
    }
  }

  // ---- Any interleaving of pushes and pops -------------------------------------------

  datatype Use = Pushed(chunk: Bytes) | Popped

  // The buffer, the bytes it accepted, the messages popped, and the last chunk that entered.
  datatype Usage = Usage(buffer: Buffer, accepted: Bytes, popped: seq<Bytes>, last: Bytes)

  function Uses(us: seq<Use>, maxSize: nat): Usage {
    if us == [] then Usage(NO_BYTES, [], [], [])
    else
      var u := Uses(us[..|us| - 1], maxSize);
      match us[|us| - 1]
      case Pushed(chunk) =>
        if Accepts(u.buffer, maxSize)
        then Usage(Push(u.buffer, chunk, maxSize), u.accepted + chunk, u.popped, chunk) else u
      case Popped =>
        if u.buffer.queue == [] then u
        else u.(buffer := Pop(u.buffer), popped := u.popped + [u.buffer.queue[0]])
  }

  /** Popped messages, queue and partial message together are the split of all accepted bytes. */
  lemma {:induction false} ChunkingDoesNotMatter(us: seq<Use>, maxSize: nat)
    ensures var u := Uses(us, maxSize);
      Split([], u.accepted) == Stream(u.popped + u.buffer.queue, u.buffer.partial)
  {
    if us != [] {
      ChunkingDoesNotMatter(us[..|us| - 1], maxSize);
      var u := Uses(us[..|us| - 1], maxSize);
      match us[|us| - 1]
      case Pushed(chunk) =>
        SplitAppend([], u.accepted, chunk);
        Assoc(u.popped, u.buffer.queue, Split(u.buffer.partial, chunk).frames);
      case Popped =>
        if u.buffer.queue != [] {
          var q := u.buffer.queue;
          assert q == [q[0]] + q[1..];
          Assoc(u.popped, [q[0]], q[1..]);
        }
    }
  }

  /** Two uses that accepted the same bytes and popped as often hold and popped the same. */
  lemma OnlyTheStreamMatters(us: seq<Use>, vs: seq<Use>, m: nat, n: nat)
    requires Uses(us, m).accepted == Uses(vs, n).accepted
    requires |Uses(us, m).popped| == |Uses(vs, n).popped|
    ensures Uses(us, m).popped == Uses(vs, n).popped && Uses(us, m).buffer == Uses(vs, n).buffer
  {
    ChunkingDoesNotMatter(us, m);
    ChunkingDoesNotMatter(vs, n);
    var u, v := Uses(us, m), Uses(vs, n);
    DropBehind(u.popped, u.buffer.queue);
    DropBehind(v.popped, v.buffer.queue);
  }

  function Terminators(s: Bytes): nat {
    multiset(s)[TERM]
  }

  lemma {:induction false} SplitCount(partial: Bytes, s: Bytes)
    ensures |Split(partial, s).frames| == Terminators(s)
    decreases |s|
  {
    if s != [] {
      assert s == [s[0]] + s[1..];
      SplitCount(if s[0] == TERM then [] else partial + [s[0]], s[1..]);
    }
  }

  lemma {:induction false} TerminatorsBound(s: Bytes)
    ensures Terminators(s) <= |s|
  {
    if s != [] {
      assert s == [s[0]] + s[1..];
      TerminatorsBound(s[1..]);
    }
  }

  /** The queue never outgrows maxSize - 1 and the terminators of the last chunk that entered. */
  lemma {:induction false} QueueIsBounded(us: seq<Use>, maxSize: nat)
    requires maxSize > 0
    ensures |Uses(us, maxSize).buffer.queue| <= maxSize - 1 + Terminators(Uses(us, maxSize).last)
  {
    if us != [] {
      QueueIsBounded(us[..|us| - 1], maxSize);
      var u := Uses(us[..|us| - 1], maxSize);
      if us[|us| - 1].Pushed? {
        SplitCount(u.buffer.partial, us[|us| - 1].chunk);
      }
    }
  }

  const PIPE_READ_SIZE: nat := 512
  const BUFFER_SIZE: nat := 100

  lemma {:induction false} LastChunkWasPushed(us: seq<Use>, maxSize: nat, size: nat)
    requires forall c :: Pushed(c) in us ==> |c| <= size
    ensures |Uses(us, maxSize).last| <= size
  {
    if us != [] {
      LastChunkWasPushed(us[..|us| - 1], maxSize, size);
      assert us[|us| - 1] in us;
    }
  }

  /** With the sizes of the code at most 611 messages are ever queued. */
  lemma QueueIsBoundedBy611(us: seq<Use>)
    requires forall c :: Pushed(c) in us ==> |c| <= PIPE_READ_SIZE
    ensures |Uses(us, BUFFER_SIZE).buffer.queue| <= 611
  {
    QueueIsBounded(us, BUFFER_SIZE);
    LastChunkWasPushed(us, BUFFER_SIZE, PIPE_READ_SIZE);
  }

  lemma {:induction false} RepeatedTerminators(n: nat)
    ensures Terminators(seq(n, _ => TERM)) == n
  {
    if n > 0 {
      RepeatedTerminators(n - 1);
      assert seq(n, _ => TERM) == seq(n - 1, _ => TERM) + [TERM];
    }
  }

  lemma {:induction false} OneByOne(k: nat, maxSize: nat)
    requires k <= maxSize
    ensures |Uses(seq(k, _ => Pushed([TERM])), maxSize).buffer.queue| == k
  {
    if k > 0 {
      OneByOne(k - 1, maxSize);
      assert seq(k, _ => Pushed([TERM]))[..k - 1] == seq(k - 1, _ => Pushed([TERM]));
      SplitCount(Uses(seq(k - 1, _ => Pushed([TERM])), maxSize).buffer.partial, [TERM]);
    }
  }

  /** The bound is reached. */
  lemma QueueReaches611() returns (us: seq<Use>)
    ensures |Uses(us, BUFFER_SIZE).buffer.queue| == 611
    ensures forall c :: Pushed(c) in us ==> |c| <= PIPE_READ_SIZE
  {
    var few, chunk := seq(99, _ => Pushed([TERM])), seq(PIPE_READ_SIZE, _ => TERM);
    us := few + [Pushed(chunk)];
    OneByOne(99, BUFFER_SIZE);
    RepeatedTerminators(PIPE_READ_SIZE);
    assert us[..|us| - 1] == few;
    SplitCount(Uses(few, BUFFER_SIZE).buffer.partial, chunk);
  }
}
