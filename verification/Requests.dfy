/** Which reads and inputs arrive as they were sent. */
module Requests {
  import opened Types
  import opened Seqs
  import opened Framing
  import opened Numbers
  import opened PatternText
  import opened Codec
  import opened Terminator
  import opened Link
  import opened Receiving
  import opened Replies
  import opened Service
  import opened Delivery
  import opened Echo

  // ---- String patterns need their bytes ----------------------------------------------

  lemma WireTextIsShortest(ft: FloatText, text: Bytes)
    requires StringPattern(text).Ok?
    ensures |WireText(ft, StringPattern(text).value)| <= |text|
  {
    if text != "*" {
      var (op, rest) := SplitOperator(text).value;
      assert |text| == |OperatorText(op)| + |rest|;
    }
  }

  // The frame holds a pattern, and one of a string.
  predicate IsPattern(m: Option<Message>) {
    m.Some? && m.value.PatternMessage?
  }

  predicate IsText(m: Option<Message>) {
    IsPattern(m) && m.value.pattern.value.StrElem?
  }

  lemma TextIsString(ft: FloatText, s: Bytes)
    requires ReadPattern(ft, s).Done? && ReadPattern(ft, s).value.value.StrElem?
    ensures s != [] && s[0] == ELEM_STRING && ReadString(s[1..]).Done?
    ensures StringPattern(ReadString(s[1..]).value) == Ok(ReadPattern(ft, s).value)
  {
  }

  // The other readers read no patterns.
  lemma OtherReaders(s: Bytes)
    ensures ReadConnection(s).Done? ==> ReadConnection(s).value.ConnectionMessage?
    ensures ReadOperation(s).Done? ==> ReadOperation(s).value.OperationMessage?
    ensures ReadResponse(s).Done? ==> ReadResponse(s).value.ServerConnectionResponse?
  {
  }

  lemma PatternTag(ft: FloatText, t: Byte, s: Bytes)
    requires ReadBody(ft, t, s).Done? && ReadBody(ft, t, s).value.PatternMessage?
    ensures t == TYPE_TUPLE_PATTERN_ELEM
    ensures ReadPattern(ft, s).Done? && ReadPattern(ft, s).value == ReadBody(ft, t, s).value.pattern
  {
    OtherReaders(s);
  }

  // It is no shorter than the pattern's message.
  lemma TextFrame(ft: FloatText, frame: Bytes)
    requires IsText(Decoded(ft, frame))
    ensures 10 <= |Serialize(ft, Decoded(ft, frame).value)| <= |frame|
    ensures FitsSizeT(WireText(ft, Decoded(ft, frame).value.pattern))
  {
    var p, k := Decoded(ft, frame).value.pattern, FirstTag(frame);
    var s := frame[k + 1..];
    PatternTag(ft, frame[k], s);
    TextIsString(ft, s);
    TextIsLong(s[1..]);
    WireTextIsShortest(ft, ReadString(s[1..]).value);
  }

  lemma TextIsLong(s: Bytes)
    requires ReadString(s).Done?
    ensures FitsSizeT(ReadString(s).value) && 8 + |ReadString(s).value| <= |s|
  {
    ReadStringInverse(s);
  }

  // The bytes of the frames that hold string patterns.
  function TextBytes(ft: FloatText, frames: seq<Bytes>): nat {
    if frames == [] then 0
    else (if IsText(Decoded(ft, frames[0])) then |frames[0]| else 0) + TextBytes(ft, frames[1..])
  }

  function PatternFrames(ft: FloatText, frames: seq<Bytes>): nat {
    if frames == [] then 0
    else (if IsPattern(Decoded(ft, frames[0])) then 1 else 0) + PatternFrames(ft, frames[1..])
  }

  // The bytes in which the string patterns were sent.
  function TextNeed(ft: FloatText, ps: seq<Pattern>): nat {
    if ps == [] then 0
    else (if ps[0].value.StrElem? then |Serialize(ft, PatternMessage(ps[0]))| else 0) + TextNeed(ft, ps[1..])
  }

  // Nothing was read from the first frame, or the first item.
  lemma FirstItem(ft: FloatText, frames: seq<Bytes>, n: int, ps: seq<Pattern>)
    requires n > 0 && Receive(AllDecoded(ft, frames), n, PatternOf).0 == Got(ps)
    ensures frames != []
    ensures var m, rest := Decoded(ft, frames[0]), AllDecoded(ft, frames[1..]);
      if m.None? then Receive(rest, n, PatternOf).0 == Got(ps)
      else ps != [] && m.value == PatternMessage(ps[0]) && Receive(rest, n - 1, PatternOf).0 == Got(ps[1..])
  {
    var ms := AllDecoded(ft, frames);
    assert frames != [] ==> ms[1..] == AllDecoded(ft, frames[1..]);
    if frames != [] && ms[0].Some? {
      var (all, left) := Receive(ms[1..], n - 1, PatternOf);
      assert ([ms[0].value.pattern] + all.items)[1..] == all.items;
    }
  }

  lemma {:induction false} ReceivedText(ft: FloatText, frames: seq<Bytes>, n: int, ps: seq<Pattern>)
    requires Receive(AllDecoded(ft, frames), n, PatternOf).0 == Got(ps)
    ensures TextNeed(ft, ps) <= TextBytes(ft, frames) && |ps| <= PatternFrames(ft, frames)
    decreases |frames|
  {
    if n > 0 {
      FirstItem(ft, frames, n, ps);
      if Decoded(ft, frames[0]).None? {
        ReceivedText(ft, frames[1..], n, ps);
      } else {
        ReceivedText(ft, frames[1..], n - 1, ps[1..]);
        if ps[0].value.StrElem? {
          TextFrame(ft, frames[0]);
        }
      }
    }
  }

  // A request was heard: its header came first, and its patterns behind it.
  lemma {:induction false} HeardText(ft: FloatText, frames: seq<Bytes>, cmd: Command)
    requires !cmd.Write? && Hear(AllDecoded(ft, frames)).0 == Operation(cmd)
    ensures TextNeed(ft, cmd.pattern) <= TextBytes(ft, frames) && |cmd.pattern| <= PatternFrames(ft, frames)
    ensures exists i :: 0 <= i < |frames| && IsHeader(Decoded(ft, frames[i]))
  {
    if frames != [] {
      assert AllDecoded(ft, frames)[1..] == AllDecoded(ft, frames[1..]);
      var m := Decoded(ft, frames[0]);
      if m.None? {
        HeardText(ft, frames[1..], cmd);
        var i :| 0 <= i < |frames[1..]| && IsHeader(Decoded(ft, frames[1..][i]));
        assert frames[i + 1] == frames[1..][i];
      } else {
        assert m.value.OperationMessage?;
        ReceivedText(ft, frames[1..], ToSigned(m.value.tupleSize), cmd.pattern);
      }
    }
  }

  predicate IsHeader(m: Option<Message>) {
    m.Some? && m.value.OperationMessage?
  }

  // ---- The bytes of a request --------------------------------------------------------

  lemma {:induction false} TextAppend(ft: FloatText, a: seq<Bytes>, b: seq<Bytes>)
    ensures TextBytes(ft, a + b) == TextBytes(ft, a) + TextBytes(ft, b)
    ensures PatternFrames(ft, a + b) == PatternFrames(ft, a) + PatternFrames(ft, b)
  {
    if a == [] {
      assert a + b == b;
    } else {
      assert (a + b)[0] == a[0] && (a + b)[1..] == a[1..] + b;
      TextAppend(ft, a[1..], b);
    }
  }

  lemma {:induction false} TextInJoin(ft: FloatText, frames: seq<Bytes>)
    ensures TextBytes(ft, frames) + |frames| <= |Join(frames)|
  {
    if frames != [] {
      TextInJoin(ft, frames[1..]);
    }
  }

  // The frames of one message and its terminator.
  function MessageFrames(s: Bytes): seq<Bytes> {
    Split([], s + [TERM]).frames
  }

  lemma MessageIsCut(s: Bytes)
    ensures Split([], s + [TERM]) == Stream(MessageFrames(s), [])
    ensures |MessageFrames(s)| == Terminators(s) + 1
    ensures Join(MessageFrames(s)) == s + [TERM]
    ensures DollarFree(s) ==> MessageFrames(s) == [s]
  {
    SplitAppend([], s, [TERM]);
    assert [TERM][1..] == [];
    SplitCount([], s + [TERM]);
    SplitLosesNothing([], s + [TERM]);
    var frames := MessageFrames(s);
    assert Join(frames) + [] == Join(frames) && [] + (s + [TERM]) == s + [TERM];
    if DollarFree(s) {
      SplitPlain([], s);
      assert [] + s == s;
    }
  }

  // A message leaves no more text than its own bytes, and less if a terminator breaks it.
  lemma TextInMessage(ft: FloatText, s: Bytes)
    ensures TextBytes(ft, MessageFrames(s)) + Terminators(s) <= |s|
  {
    MessageIsCut(s);
    TextInJoin(ft, MessageFrames(s));
  }

  lemma FramesOfWire(ft: FloatText, m: Message, ms: seq<Message>)
    ensures Split([], Wire(ft, [m] + ms)).frames ==
            MessageFrames(Serialize(ft, m)) + Split([], Wire(ft, ms)).frames
  {
    var s := Serialize(ft, m);
    MessageIsCut(s);
    assert ([m] + ms)[1..] == ms;
    SplitAppend([], s + [TERM], Wire(ft, ms));
  }

  // The message comes over whole, or nothing of it can be read.
  predicate WholeOrNothing(ft: FloatText, p: Pattern) {
    var s := Serialize(ft, PatternMessage(p));
    DollarFree(s) || forall f :: f in MessageFrames(s) ==> Decoded(ft, f) == None
  }

  lemma {:induction false} NothingIsHeld(ft: FloatText, frames: seq<Bytes>)
    requires forall f :: f in frames ==> Decoded(ft, f) == None
    ensures TextBytes(ft, frames) == 0 && PatternFrames(ft, frames) == 0
  {
    if frames != [] {
      NothingIsHeld(ft, frames[1..]);
    }
  }

  lemma OneFrame(ft: FloatText, s: Bytes)
    ensures TextBytes(ft, [s]) == if IsText(Decoded(ft, s)) then |s| else 0
    ensures PatternFrames(ft, [s]) == if IsPattern(Decoded(ft, s)) then 1 else 0
  {
    var none: seq<Bytes> := [s][1..];
    assert none == [];
  }

  // Numbers leave no text.
  lemma NoTextInNumber(ft: FloatText, p: Pattern)
    requires !p.value.StrElem? && WholeOrNothing(ft, p)
    ensures TextBytes(ft, MessageFrames(Serialize(ft, PatternMessage(p)))) == 0
  {
    var s := Serialize(ft, PatternMessage(p));
    if DollarFree(s) {
      MessageIsCut(s);
      OneFrame(ft, s);
      NumberIsNoText(ft, p);
    } else {
      NothingIsHeld(ft, MessageFrames(s));
    }
  }

  lemma NumberIsNoText(ft: FloatText, p: Pattern)
    requires !p.value.StrElem?
    ensures !IsText(Decoded(ft, Serialize(ft, PatternMessage(p))))
  {
    var s := Serialize(ft, PatternMessage(p));
    if IsText(Decoded(ft, s)) {
      assert FirstTag(s) == 0 && s[1..][0] == ElemType(p.value);
      PatternTag(ft, s[0], s[1..]);
      TextIsString(ft, s[1..]);
      assert false;
    }
  }

  // A message leaves one pattern, and none if it is broken and nothing of it can be read.
  lemma PatternsInMessage(ft: FloatText, p: Pattern)
    requires WholeOrNothing(ft, p)
    ensures var s := Serialize(ft, PatternMessage(p));
      PatternFrames(ft, MessageFrames(s)) <= if DollarFree(s) then 1 else 0
  {
    var s := Serialize(ft, PatternMessage(p));
    if DollarFree(s) {
      MessageIsCut(s);
      OneFrame(ft, s);
    } else {
      NothingIsHeld(ft, MessageFrames(s));
    }
  }

  lemma {:induction false} FramesOfPatterns(ft: FloatText, ps: seq<Pattern>)
    requires forall i :: 0 <= i < |ps| ==> WholeOrNothing(ft, ps[i])
    ensures var k := PatternFrames(ft, Split([], Wire(ft, PatternMessages(ps))).frames);
      && k <= |ps|
      && (k == |ps| ==> forall i :: 0 <= i < |ps| ==> DollarFree(Serialize(ft, PatternMessage(ps[i]))))
  {
    if ps != [] {
      var m, rest := PatternMessage(ps[0]), PatternMessages(ps[1..]);
      FramesOfPatterns(ft, ps[1..]);
      FramesOfWire(ft, m, rest);
      TextAppend(ft, MessageFrames(Serialize(ft, m)), Split([], Wire(ft, rest)).frames);
      PatternsInMessage(ft, ps[0]);
      assert forall i :: 0 < i < |ps| ==> ps[i] == ps[1..][i - 1];
    }
  }

  lemma PatternFrame(ft: FloatText, frame: Bytes)
    requires IsPattern(Decoded(ft, frame))
    ensures 10 <= |frame|
  {
    var k := FirstTag(frame);
    PatternTag(ft, frame[k], frame[k + 1..]);
  }

  // A header is too short for patterns.
  lemma {:induction false} NothingInShort(ft: FloatText, frames: seq<Bytes>)
    requires |Join(frames)| < 10
    ensures TextBytes(ft, frames) == 0 && PatternFrames(ft, frames) == 0
  {
    if frames != [] {
      NothingInShort(ft, frames[1..]);
      if IsPattern(Decoded(ft, frames[0])) {
        PatternFrame(ft, frames[0]);
      }
    }
  }

  // A string pattern is broken by a terminator.
  predicate Broken(ft: FloatText, p: Pattern) {
    p.value.StrElem? && !DollarFree(Serialize(ft, PatternMessage(p)))
  }

  lemma NoTerminators(s: Bytes)
    ensures Terminators(s) == 0 <==> DollarFree(s)
  {
  }

  lemma {:induction false} TextOfPatterns(ft: FloatText, ps: seq<Pattern>)
    requires forall i :: 0 <= i < |ps| && !ps[i].value.StrElem? ==> WholeOrNothing(ft, ps[i])
    ensures var text := TextBytes(ft, Split([], Wire(ft, PatternMessages(ps))).frames);
      && text <= TextNeed(ft, ps)
      && ((exists i :: 0 <= i < |ps| && Broken(ft, ps[i])) ==> text < TextNeed(ft, ps))
  {
    if ps != [] {
      TextOfPatterns(ft, ps[1..]);
      var m := PatternMessage(ps[0]);
      var s := Serialize(ft, m);
      FramesOfWire(ft, m, PatternMessages(ps[1..]));
      TextAppend(ft, MessageFrames(s), Split([], Wire(ft, PatternMessages(ps[1..]))).frames);
      TextInMessage(ft, s);
      NoTerminators(s);
      if !ps[0].value.StrElem? {
        NoTextInNumber(ft, ps[0]);
      }
      if i :| 0 <= i < |ps| && Broken(ft, ps[i]) {
        assert i > 0 ==> Broken(ft, ps[1..][i - 1]);
      }
    }
  }

  // ---- Integers ----------------------------------------------------------------------

  function Pow10(k: nat): nat {
    if k == 0 then 1 else 10 * Pow10(k - 1)
  }

  lemma {:induction false} DigitsLength(n: nat, k: nat)
    requires k > 0 && n < Pow10(k)
    ensures |Digits(n)| <= k
  {
    if n >= 10 {
      DigitsLength(n / 10, k - 1);
    }
  }

  lemma IntTextIsPlain(i: Int32)
    ensures |IntText(i)| <= 11 && DollarFree(IntText(i))
  {
    assert Pow10(5) == 100000;
    assert Pow10(10) == 10000000000;
    DigitsLength(Numbers.Magnitude(i), 10);
  }

  lemma OperatorIsPlain(op: Operator)
    ensures 1 <= |OperatorText(op)| <= 2 && DollarFree(OperatorText(op))
  {
  }

  lemma {:induction false} ShortNumberIsPlain(n: nat, width: nat)
    requires n < 36 && width > 0
    ensures DollarFree(Encode(n, width))
  {
    NoTerminatorIn(width - 1);
    assert Encode(n, width) == [n as char] + Encode(0, width - 1);
  }

  predicate PlainPattern(ft: FloatText, p: Pattern) {
    FitsSizeT(WireText(ft, p)) && DollarFree(Serialize(ft, PatternMessage(p)))
  }

  // An integer pattern never holds the terminator.
  lemma IntIsPlain(ft: FloatText, p: Pattern)
    requires p.value.IntElem?
    ensures PlainPattern(ft, p)
  {
    var text := WireText(ft, p);
    IntTextIsPlain(p.value.i);
    OperatorIsPlain(p.op);
    OperatorIsPlain(All);
    ShortNumberIsPlain(|text|, SIZE_64);
    PlainMessage(ft, p);
  }

  lemma PlainParts(a: Bytes, b: Bytes, c: Bytes)
    requires DollarFree(a) && DollarFree(b) && DollarFree(c)
    ensures DollarFree(a + (b + c))
  {
  }

  lemma Bracket(a: Byte, b: Byte, c: Bytes)
    ensures [a] + ([b] + c) == [a, b] + c
  {
  }

  lemma PatternBytes(ft: FloatText, p: Pattern)
    requires FitsSizeT(WireText(ft, p))
    ensures Serialize(ft, PatternMessage(p)) ==
            [TYPE_TUPLE_PATTERN_ELEM, ElemType(p.value)] + (Encode(|WireText(ft, p)|, SIZE_64) + WireText(ft, p))
  {
    Bracket(TYPE_TUPLE_PATTERN_ELEM, ElemType(p.value), StringBytes(WireText(ft, p)));
  }

  lemma PlainMessage(ft: FloatText, p: Pattern)
    requires var text := WireText(ft, p); |text| < 36 && DollarFree(text) && DollarFree(Encode(|text|, SIZE_64))
    ensures PlainPattern(ft, p)
  {
    var text := WireText(ft, p);
    PlainParts([TYPE_TUPLE_PATTERN_ELEM, ElemType(p.value)], Encode(|text|, SIZE_64), text);
    PatternBytes(ft, p);
  }

  // ---- Doubles -----------------------------------------------------------------------

  // What `std::to_string` writes: no terminator and no tag, and not too long.
  predicate TamePattern(ft: FloatText, p: Pattern) {
    var text := WireText(ft, p); |text| < 2048 && DollarFree(text) && TagFree(text)
  }

  predicate TameDoubles(ft: FloatText, ps: seq<Pattern>) {
    forall i :: 0 <= i < |ps| && ps[i].value.FloatElem? ==> TamePattern(ft, ps[i])
  }

  lemma {:induction false} LengthBytes(n: nat, width: nat)
    requires n < 2048 && width > 1
    ensures Encode(n, width) == [(n % 256) as char] + ([(n / 256) as char] + Encode(0, width - 2))
  {
    assert Encode(n / 256, width - 1) == [(n / 256) as char] + Encode(0, width - 2);
  }

  // A tag-free string holds no message.
  lemma NothingWithoutTag(ft: FloatText, s: Bytes)
    requires TagFree(s)
    ensures Decoded(ft, s) == None
  {
  }

  // The message behind its element type and first length byte.
  function BackPart(text: Bytes): Bytes
    requires |text| < 2048
  {
    [(|text| / 256) as char] + (Encode(0, 6) + text)
  }

  lemma BehindIsTame(text: Bytes)
    requires |text| < 2048 && DollarFree(text) && TagFree(text)
    ensures DollarFree(BackPart(text)) && TagFree(BackPart(text))
  {
    NoTerminatorIn(6);
    NoTagIn(6);
  }

  lemma DoubleBytes(ft: FloatText, p: Pattern)
    requires p.value.FloatElem? && |WireText(ft, p)| < 2048
    ensures var text := WireText(ft, p);
      Serialize(ft, PatternMessage(p)) ==
      [TYPE_TUPLE_PATTERN_ELEM, ELEM_FLOAT] + ([(|text| % 256) as char] + BackPart(text))
  {
    var text := WireText(ft, p);
    PatternBytes(ft, p);
    LengthBytes(|text|, SIZE_64);
    Regroup([(|text| % 256) as char], [(|text| / 256) as char], Encode(0, 6), text);
  }

  lemma Regroup(a: Bytes, b: Bytes, c: Bytes, d: Bytes)
    ensures (a + (b + c)) + d == a + (b + (c + d))
  {
  }

  // Only the first length byte can be the terminator; the message is cut behind its element type.
  lemma DoubleWholeOrNothing(ft: FloatText, p: Pattern)
    requires p.value.FloatElem? && TamePattern(ft, p)
    ensures WholeOrNothing(ft, p)
  {
    var m, text, tags := PatternMessage(p), WireText(ft, p), [TYPE_TUPLE_PATTERN_ELEM, ELEM_FLOAT];
    DoubleBytes(ft, p);
    BehindIsTame(text);
    if |text| % 256 == TERM as int {
      CutInTwo(tags, BackPart(text));
      DropBehind(tags, [TERM] + BackPart(text));
      PrefixesFail(ft, m, 2);
      NothingWithoutTag(ft, BackPart(text));
    } else {
      PlainParts(tags, [(|text| % 256) as char], BackPart(text));
    }
  }

  lemma {:induction false} NoTagIn(width: nat)
    ensures TagFree(Encode(0, width))
  {
    if width > 0 {
      NoTagIn(width - 1);
      assert Encode(0, width)[1..] == Encode(0, width - 1);
    }
  }

  // ---- The header --------------------------------------------------------------------

  lemma HeaderFrame(ft: FloatText, frame: Bytes)
    requires IsHeader(Decoded(ft, frame))
    ensures 6 <= |frame|
  {
    var k := FirstTag(frame);
    var s := frame[k + 1..];
    OtherReaders(s);
    assert frame[k] == TYPE_OPERATION_MSG;
    ReadOperationInverse(s);
  }

  lemma {:induction false} PiecesAreShort(frames: seq<Bytes>, i: nat)
    requires i < |frames|
    ensures |frames[i]| + |frames| <= |Join(frames)|
  {
    if i > 0 {
      PiecesAreShort(frames[1..], i - 1);
    } else {
      JoinIsLong(frames[1..]);
    }
  }

  lemma {:induction false} JoinIsLong(frames: seq<Bytes>)
    ensures |frames| <= |Join(frames)|
  {
    if frames != [] {
      JoinIsLong(frames[1..]);
    }
  }

  // A pattern's message holds no header if no terminator breaks it.
  lemma PatternIsNoHeader(ft: FloatText, p: Pattern)
    ensures !IsHeader(Decoded(ft, Serialize(ft, PatternMessage(p))))
  {
    var s := Serialize(ft, PatternMessage(p));
    assert FirstTag(s) == 0 && s[0] == TYPE_TUPLE_PATTERN_ELEM;
  }

  lemma {:induction false} NoHeaderInPatterns(ft: FloatText, ps: seq<Pattern>)
    requires forall i :: 0 <= i < |ps| ==> DollarFree(Serialize(ft, PatternMessage(ps[i])))
    ensures forall f :: f in Split([], Wire(ft, PatternMessages(ps))).frames ==> !IsHeader(Decoded(ft, f))
  {
    if ps != [] {
      NoHeaderInPatterns(ft, ps[1..]);
      var m := PatternMessage(ps[0]);
      FramesOfWire(ft, m, PatternMessages(ps[1..]));
      MessageIsCut(Serialize(ft, m));
      PatternIsNoHeader(ft, ps[0]);
    }
  }

  // If a terminator breaks the header, it cannot be heard.
  lemma PieceOfHeader(ft: FloatText, m: Message, frame: Bytes)
    requires m.OperationMessage? && frame in MessageFrames(Serialize(ft, m)) && IsHeader(Decoded(ft, frame))
    ensures DollarFree(Serialize(ft, m))
  {
    var s := Serialize(ft, m);
    HeaderFrame(ft, frame);
    MessageIsCut(s);
    NoTerminators(s);
    var i :| 0 <= i < |MessageFrames(s)| && MessageFrames(s)[i] == frame;
    PiecesAreShort(MessageFrames(s), i);
    assert |s| == 6;
  }

  lemma HeaderIsWhole(ft: FloatText, m: Message, ps: seq<Pattern>, frame: Bytes)
    requires m.OperationMessage? && forall i :: 0 <= i < |ps| ==> DollarFree(Serialize(ft, PatternMessage(ps[i])))
    requires frame in Split([], Wire(ft, [m] + PatternMessages(ps))).frames && IsHeader(Decoded(ft, frame))
    ensures DollarFree(Serialize(ft, m))
  {
    FramesOfWire(ft, m, PatternMessages(ps));
    NoHeaderInPatterns(ft, ps);
    PieceOfHeader(ft, m, frame);
  }

  // ---- All messages whole ------------------------------------------------------------

  lemma {:induction false} AllTaken(ms: seq<Option<Message>>, n: int, ps: seq<Pattern>)
    requires n == |ms| && Receive(ms, n, PatternOf).0 == Got(ps)
    ensures |ps| == |ms| && forall i :: 0 <= i < |ms| ==> ms[i] == Some(PatternMessage(ps[i]))
    decreases |ms|
  {
    if ms != [] {
      var (m, rest) := NextRead(ms);
      if ms[0].None? {
        TooFewAreRead(ms[1..], n);
        assert false;
      } else {
        var (all, left) := Receive(rest, n - 1, PatternOf);
        AllTaken(ms[1..], n - 1, all.items);
        assert forall i :: 0 < i < |ms| ==> ms[i] == ms[1..][i - 1] && ps[i] == all.items[i - 1];
      }
    }
  }

  lemma {:induction false} TooFewAreRead(ms: seq<Option<Message>>, n: int)
    requires |ms| < n
    ensures !Receive(ms, n, PatternOf).0.Got?
    decreases |ms|
  {
    if ms != [] {
      if ms[0].None? {
        TooFewAreRead(ms[1..], n);
      } else if PatternOf(ms[0].value).Some? {
        TooFewAreRead(ms[1..], n - 1);
      }
    }
  }

  predicate AllWhole(ft: FloatText, ms: seq<Message>) {
    forall i :: 0 <= i < |ms| ==> DollarFree(Serialize(ft, ms[i]))
  }

  function OpOf(cmd: Command): Byte
    requires !cmd.Write?
  {
    if cmd.Read? then OP_LINDA_READ else OP_LINDA_INPUT
  }

  // A request that is heard as it was sent has come over whole.
  lemma HeardIsWhole(ft: FloatText, cmd: Command)
    requires !cmd.Write? && TameDoubles(ft, cmd.pattern)
    requires HeardIn(ft, Wire(ft, CommandMessages(cmd))) == Operation(cmd)
    ensures AllWhole(ft, CommandMessages(cmd))
  {
    var ps := cmd.pattern;
    var m := OperationMessage(OpOf(cmd), Low32(|ps|));
    var frames := Split([], Wire(ft, CommandMessages(cmd))).frames;
    HeardText(ft, frames, cmd);
    NumbersWholeOrNothing(ft, ps);
    WholePatterns(ft, m, ps);
    var i :| 0 <= i < |frames| && IsHeader(Decoded(ft, frames[i]));
    HeaderIsWhole(ft, m, ps, frames[i]);
  }

  lemma NumbersWholeOrNothing(ft: FloatText, ps: seq<Pattern>)
    requires TameDoubles(ft, ps)
    ensures forall i :: 0 <= i < |ps| && !ps[i].value.StrElem? ==> WholeOrNothing(ft, ps[i])
  {
    forall i | 0 <= i < |ps| && !ps[i].value.StrElem? ensures WholeOrNothing(ft, ps[i]) {
      if ps[i].value.IntElem? {
        IntIsPlain(ft, ps[i]);
      } else {
        DoubleWholeOrNothing(ft, ps[i]);
      }
    }
  }

  lemma WholeStrings(ft: FloatText, m: Message, ps: seq<Pattern>)
    requires m.OperationMessage? && forall i :: 0 <= i < |ps| && !ps[i].value.StrElem? ==> WholeOrNothing(ft, ps[i])
    requires TextNeed(ft, ps) <= TextBytes(ft, Split([], Wire(ft, [m] + PatternMessages(ps))).frames)
    ensures forall i :: 0 <= i < |ps| ==> WholeOrNothing(ft, ps[i])
  {
    var s, ms := Serialize(ft, m), PatternMessages(ps);
    FramesOfWire(ft, m, ms);
    TextAppend(ft, MessageFrames(s), Split([], Wire(ft, ms)).frames);
    MessageIsCut(s);
    assert |s| == 6;
    NothingInShort(ft, MessageFrames(s));
    TextOfPatterns(ft, ps);
    forall i | 0 <= i < |ps| ensures WholeOrNothing(ft, ps[i]) {
      assert !Broken(ft, ps[i]);
    }
  }

  // The strings need all their bytes, and behind them the numbers all their frames.
  lemma WholePatterns(ft: FloatText, m: Message, ps: seq<Pattern>)
    requires m.OperationMessage? && forall i :: 0 <= i < |ps| && !ps[i].value.StrElem? ==> WholeOrNothing(ft, ps[i])
    requires var frames := Split([], Wire(ft, [m] + PatternMessages(ps))).frames;
      TextNeed(ft, ps) <= TextBytes(ft, frames) && |ps| <= PatternFrames(ft, frames)
    ensures forall i :: 0 <= i < |ps| ==> DollarFree(Serialize(ft, PatternMessage(ps[i])))
  {
    var s, ms := Serialize(ft, m), PatternMessages(ps);
    WholeStrings(ft, m, ps);
    FramesOfWire(ft, m, ms);
    TextAppend(ft, MessageFrames(s), Split([], Wire(ft, ms)).frames);
    MessageIsCut(s);
    assert |s| == 6;
    NothingInShort(ft, MessageFrames(s));
    FramesOfPatterns(ft, ps);
  }

  lemma WholeFrames(ft: FloatText, ms: seq<Message>)
    requires AllWhole(ft, ms)
    ensures Split([], Wire(ft, ms)).frames == Frames(ft, ms)
  {
    forall f | f in Frames(ft, ms) ensures DollarFree(f) {
      var i :| 0 <= i < |ms| && Frames(ft, ms)[i] == f;
      FrameAt(ft, ms, i);
    }
    FramingIsExact(Frames(ft, ms));
  }

  lemma DecodedMessages(ft: FloatText, ms: seq<Message>, i: nat)
    requires i < |ms|
    ensures AllDecoded(ft, Frames(ft, ms))[i] == Decoded(ft, Serialize(ft, ms[i]))
  {
    DecodedAt(ft, Frames(ft, ms), i);
    FrameAt(ft, ms, i);
  }

  // The receiver decodes what was sent.
  lemma WholeIsDecoded(ft: FloatText, m: Message)
    requires WellFormed(ft, m)
    ensures Decoded(ft, Serialize(ft, m)) == Some(m) ==> Survives(ft, m)
  {
    MessageRoundTrip(ft, m, []);
    assert Serialize(ft, m) + [] == Serialize(ft, m);
  }

  lemma HeaderSurvives(ft: FloatText, m: Message)
    requires m.OperationMessage?
    ensures Decoded(ft, Serialize(ft, m)) == Some(m) && Survives(ft, m)
  {
    MessageRoundTrip(ft, m, []);
    assert Serialize(ft, m) + [] == Serialize(ft, m);
  }

  // What is heard behind a header.
  lemma HeardBehindHeader(ms: seq<Option<Message>>, op: Byte, size: UInt32, cmd: Command)
    requires !cmd.Write? && ms != [] && ms[0] == Some(OperationMessage(op, size)) && Hear(ms).0 == Operation(cmd)
    ensures Receive(ms[1..], ToSigned(size), PatternOf).0 == Got(cmd.pattern)
  {
  }

  // The items behind a whole header.
  lemma ItemsOfWhole(ft: FloatText, cmd: Command)
    requires !cmd.Write? && AllWhole(ft, CommandMessages(cmd))
    requires HeardIn(ft, Wire(ft, CommandMessages(cmd))) == Operation(cmd)
    ensures |cmd.pattern| < 0x8000_0000
    ensures forall i :: 0 <= i < |cmd.pattern| ==>
              Decoded(ft, Serialize(ft, PatternMessage(cmd.pattern[i]))) == Some(PatternMessage(cmd.pattern[i]))
  {
    var ps := cmd.pattern;
    var m, ms, n := OperationMessage(OpOf(cmd), Low32(|ps|)), PatternMessages(ps), ToSigned(Low32(|ps|));
    var rest := AllDecoded(ft, Frames(ft, ms));
    WholeFrames(ft, [m] + ms);
    HeaderSurvives(ft, m);
    DecodedFirst(ft, m, ms);
    HeardBehindHeader([Some(m)] + rest, OpOf(cmd), Low32(|ps|), cmd);
    assert ([Some(m)] + rest)[1..] == rest;
    GotAsMany(rest, n, ps);
    AllTaken(rest, n, ps);
    forall i | 0 <= i < |ps|
      ensures Decoded(ft, Serialize(ft, PatternMessage(ps[i]))) == Some(PatternMessage(ps[i]))
    {
      DecodedMessages(ft, ms, i);
    }
  }

  lemma DecodedFirst(ft: FloatText, m: Message, ms: seq<Message>)
    ensures AllDecoded(ft, Frames(ft, [m] + ms)) ==
            [Decoded(ft, Serialize(ft, m))] + AllDecoded(ft, Frames(ft, ms))
  {
    assert ([m] + ms)[1..] == ms && Frames(ft, [m] + ms)[1..] == Frames(ft, ms);
  }

  lemma {:induction false} GotAsMany(ms: seq<Option<Message>>, n: int, ps: seq<Pattern>)
    requires Receive(ms, n, PatternOf).0 == Got(ps)
    ensures |ps| == if n < 0 then 0 else n
    decreases |ms|
  {
    if n > 0 {
      var (m, rest) := NextRead(ms);
      GotAsMany(rest, n - 1, Receive(rest, n - 1, PatternOf).0.items);
    }
  }

  /** A read or input is heard as it was sent exactly if all its messages survive, hold no terminator, and
      their number fits into an int; provided the texts of its doubles hold neither terminator nor tag. */
  lemma RequestIsHeardIff(ft: FloatText, cmd: Command)
    requires !cmd.Write? && TameDoubles(ft, cmd.pattern)
    ensures HeardIn(ft, Wire(ft, CommandMessages(cmd))) == Operation(cmd) <==> Sendable(ft, cmd)
  {
    if Sendable(ft, cmd) {
      SendableIsAudible(ft, cmd);
      RebuiltCommandIsHeard(ft, cmd, []);
      assert CommandMessages(cmd) + [] == CommandMessages(cmd);
      assert [] + Split([], Wire(ft, CommandMessages(cmd))).frames == Split([], Wire(ft, CommandMessages(cmd))).frames;
    }
    if HeardIn(ft, Wire(ft, CommandMessages(cmd))) == Operation(cmd) {
      HeardIsWhole(ft, cmd);
      ItemsOfWhole(ft, cmd);
      WholeIsSendable(ft, cmd);
    }
  }

  lemma WholePatternIsClean(ft: FloatText, p: Pattern)
    requires p.value.FloatElem? ==> TamePattern(ft, p)
    requires var m := PatternMessage(p); DollarFree(Serialize(ft, m)) && Decoded(ft, Serialize(ft, m)) == Some(m)
    ensures Clean(ft, PatternMessage(p))
  {
    if p.value.StrElem? {
      TextFrame(ft, Serialize(ft, PatternMessage(p)));
    } else if p.value.IntElem? {
      IntIsPlain(ft, p);
    }
    WholeIsDecoded(ft, PatternMessage(p));
  }

  lemma WholeIsSendable(ft: FloatText, cmd: Command)
    requires !cmd.Write? && AllWhole(ft, CommandMessages(cmd)) && TameDoubles(ft, cmd.pattern)
    requires |cmd.pattern| < 0x8000_0000
    requires forall i :: 0 <= i < |cmd.pattern| ==>
               Decoded(ft, Serialize(ft, PatternMessage(cmd.pattern[i]))) == Some(PatternMessage(cmd.pattern[i]))
    ensures Sendable(ft, cmd)
  {
    var ps, ms := cmd.pattern, CommandMessages(cmd);
    forall i | 0 <= i < |ms| ensures Clean(ft, ms[i]) {
      if i == 0 {
        HeaderSurvives(ft, ms[0]);
      } else {
        assert ms[i] == PatternMessage(ps[i - 1]);
        WholePatternIsClean(ft, ps[i - 1]);
      }
    }
  }

  // ---- A double that smuggles itself in ----------------------------------------------

  // The message of `== 1`, written into a text behind a terminator.
  const ONE: Bytes := ['1']
  const IS_ONE: Bytes := ['=', '=', '1']
  const SMUGGLED: Bytes := [TYPE_TUPLE_PATTERN_ELEM, ELEM_FLOAT] + StringBytes(IS_ONE)

  // Doubles are written so, and read from `1`.
  const ODD_TEXT: FloatText := FloatText(_ => [TERM] + SMUGGLED, text => if text == ONE then Some(0) else None)

  const SMUGGLER: Pattern := Pattern(FloatElem(0), Equal)

  lemma SmuggledIsPlain()
    ensures DollarFree(SMUGGLED)
  {
    ShortNumberIsPlain(3, SIZE_64);
    PlainParts([TYPE_TUPLE_PATTERN_ELEM, ELEM_FLOAT], Encode(3, SIZE_64), IS_ONE);
  }

  lemma SmugglerIsBuilt()
    ensures BuildPattern(ODD_TEXT, ELEM_FLOAT, IS_ONE) == Ok(SMUGGLER)
  {
    assert IS_ONE[2..] == ONE && IS_ONE != "*";
  }

  lemma SmuggledIsRead()
    ensures Decoded(ODD_TEXT, SMUGGLED) == Some(PatternMessage(SMUGGLER))
  {
    var body := [ELEM_FLOAT] + StringBytes(IS_ONE);
    PatternTextIsRead(ODD_TEXT, ELEM_FLOAT, IS_ONE, []);
    SmugglerIsBuilt();
    Bracket(TYPE_TUPLE_PATTERN_ELEM, ELEM_FLOAT, StringBytes(IS_ONE));
    assert body + [] == body && SMUGGLED[1..] == body;
  }

  lemma CutInTwo(front: Bytes, back: Bytes)
    requires DollarFree(front) && DollarFree(back)
    ensures MessageFrames(front + ([TERM] + back)) == [front, back]
  {
    SplitPlain([], front);
    assert [] + front == front && front + ([TERM] + back) + [TERM] == front + ([TERM] + (back + [TERM]));
    SplitAppend([], front, [TERM] + (back + [TERM]));
    assert ([TERM] + (back + [TERM]))[1..] == back + [TERM];
    MessageIsCut(back);
  }

  // The front part of its message.
  function Front(text: Bytes): Bytes {
    [TYPE_TUPLE_PATTERN_ELEM, ELEM_FLOAT] + (Encode(|text|, SIZE_64) + OperatorText(Equal))
  }

  lemma SmugglerBytes()
    ensures var s, text := Serialize(ODD_TEXT, PatternMessage(SMUGGLER)), WireText(ODD_TEXT, SMUGGLER);
      |text| == 16 && s == Front(text) + ([TERM] + SMUGGLED)
  {
    var text := WireText(ODD_TEXT, SMUGGLER);
    assert text == OperatorText(Equal) + ([TERM] + SMUGGLED);
  }

  lemma SmugglerFrames()
    ensures var s, front := Serialize(ODD_TEXT, PatternMessage(SMUGGLER)), Front(WireText(ODD_TEXT, SMUGGLER));
      !DollarFree(s) && MessageFrames(s) == [front, SMUGGLED] && Decoded(ODD_TEXT, front) == None
  {
    var m := PatternMessage(SMUGGLER);
    var s, front := Serialize(ODD_TEXT, m), Front(WireText(ODD_TEXT, SMUGGLER));
    SmugglerBytes();
    SmuggledIsPlain();
    ShortNumberIsPlain(16, SIZE_64);
    PlainParts([TYPE_TUPLE_PATTERN_ELEM, ELEM_FLOAT], Encode(16, SIZE_64), OperatorText(Equal));
    CutInTwo(front, SMUGGLED);
    assert s[|front|] == TERM && s[..|front|] == front;
    PrefixesFail(ODD_TEXT, m, |front|);
  }

  lemma RequestFrames()
    ensures var h := Serialize(ODD_TEXT, OperationMessage(OP_LINDA_READ, 1));
      Split([], Wire(ODD_TEXT, CommandMessages(Read([SMUGGLER])))).frames ==
      [h, Front(WireText(ODD_TEXT, SMUGGLER)), SMUGGLED]
  {
    var m, header := PatternMessage(SMUGGLER), OperationMessage(OP_LINDA_READ, 1);
    assert CommandMessages(Read([SMUGGLER])) == [header] + ([m] + []);
    SmugglerFrames();
    FramesOfWire(ODD_TEXT, header, [m] + []);
    FramesOfWire(ODD_TEXT, m, []);
    ShortHeaderIsPlain();
    MessageIsCut(Serialize(ODD_TEXT, header));
  }

  lemma ShortHeaderIsPlain()
    ensures DollarFree(Serialize(ODD_TEXT, OperationMessage(OP_LINDA_READ, 1)))
  {
    HeaderBytes(ODD_TEXT, OP_LINDA_READ, 1);
    ShortNumberIsPlain(1, SIZE_32);
  }

  /** Without that proviso it fails: a double whose text holds a terminator and its own message is heard as
      it was sent, though its message is broken. */
  lemma DoubleCanSmuggleItself()
    ensures var cmd := Read([SMUGGLER]);
      HeardIn(ODD_TEXT, Wire(ODD_TEXT, CommandMessages(cmd))) == Operation(cmd) && !Sendable(ODD_TEXT, cmd)
  {
    var header := OperationMessage(OP_LINDA_READ, 1);
    var cmd := Read([SMUGGLER]);
    var h := Serialize(ODD_TEXT, header);
    RequestFrames();
    SmugglerFrames();
    SmuggledIsRead();
    HeaderSurvives(ODD_TEXT, header);
    DecodedThree(ODD_TEXT, h, Front(WireText(ODD_TEXT, SMUGGLER)), SMUGGLED);
    ReadBehindGap(Some(header), Some(PatternMessage(SMUGGLER)), cmd);
    assert CommandMessages(cmd)[1] == PatternMessage(SMUGGLER);
  }

  lemma ReadBehindGap(header: Option<Message>, m: Option<Message>, cmd: Command)
    requires header == Some(OperationMessage(OP_LINDA_READ, 1)) && m == Some(PatternMessage(SMUGGLER))
    requires cmd == Read([SMUGGLER])
    ensures Hear([header, None, m]).0 == Operation(cmd)
  {
    var ms := [header, None, m];
    assert ms[1..] == [None, m] && ms[1..][1..] == [m] && |[m][1..]| == 0;
    assert NextRead(ms) == (header, [None, m]) && NextRead([None, m]) == (m, []);
    assert Receive([None, m], 1, PatternOf) == Behind([SMUGGLER], Receive([], 0, PatternOf));
  }
}
