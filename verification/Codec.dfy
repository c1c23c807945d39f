/** The binary form of a message (message.hpp, serializer.cpp, deserializer.cpp). */
module Codec {
  import opened Types
  import opened Numbers
  import opened PatternText
  import opened Seqs

  const TYPE_TUPLE_PATTERN_ELEM: Byte := 8 as char
  const TYPE_SERVER_CONN_RESPONSE: Byte := 16 as char
  const TYPE_TUPLE_ELEM: Byte := 32 as char
  const TYPE_OPERATION_MSG: Byte := 64 as char
  const TYPE_CONNECTION_MSG: Byte := 128 as char

  const OP_LINDA_READ: Byte := 128 as char
  const OP_LINDA_INPUT: Byte := 64 as char
  const OP_LINDA_WRITE: Byte := 32 as char
  const OP_RETURN_RESULT: Byte := 16 as char

  const ELEM_INT: Byte := 0 as char
  const ELEM_FLOAT: Byte := 1 as char
  const ELEM_STRING: Byte := 2 as char

  datatype Message =
    | ConnectionMessage(connect: bool)
    | ServerConnectionResponse(connected: bool, fifoWrite: Bytes, fifoRead: Bytes)
    | OperationMessage(opType: Byte, tupleSize: UInt32)
    | TupleElemMessage(elem: TupleElem)
    | PatternMessage(pattern: Pattern)

  // ---- Serialising -------------------------------------------------------------------

  function BoolBytes(b: bool): Bytes {
    if b then [1 as char] else [0 as char]
  }

  // A string is its length in eight bytes (size_t), then its characters.
  function StringBytes(s: Bytes): Bytes {
    Encode(Low64(|s|), SIZE_64) + s
  }

  function ElemType(e: TupleElem): Byte {
    match e
    case IntElem(_) => ELEM_INT
    case FloatElem(_) => ELEM_FLOAT
    case StrElem(_) => ELEM_STRING
  }

  function ElemBytes(e: TupleElem): Bytes {
    match e
    case IntElem(i) => Encode(ToUnsigned(i), SIZE_32)
    case FloatElem(d) => Encode(d, SIZE_64)
    case StrElem(s) => StringBytes(s)
  }

  function Tag(m: Message): Byte {
    match m
    case ConnectionMessage(_) => TYPE_CONNECTION_MSG
    case ServerConnectionResponse(_, _, _) => TYPE_SERVER_CONN_RESPONSE
    case OperationMessage(_, _) => TYPE_OPERATION_MSG
    case TupleElemMessage(_) => TYPE_TUPLE_ELEM
    case PatternMessage(_) => TYPE_TUPLE_PATTERN_ELEM
  }

  function Body(ft: FloatText, m: Message): Bytes {
    match m
    case ConnectionMessage(c) => BoolBytes(c)
    case ServerConnectionResponse(c, w, r) => BoolBytes(c) + (StringBytes(w) + StringBytes(r))
    case OperationMessage(op, n) => [op] + Encode(n, SIZE_32)
    case TupleElemMessage(e) => [ElemType(e)] + ElemBytes(e)
    case PatternMessage(p) => [ElemType(p.value)] + StringBytes(WireText(ft, p))
  }

  function Serialize(ft: FloatText, m: Message): Bytes {
    [Tag(m)] + Body(ft, m)
  }

  method AppendString(buffer: Bytes, value: Bytes) returns (r: Bytes)
    ensures r == buffer + StringBytes(value)
  {
    r := buffer + Encode(Low64(|value|), SIZE_64);
    r := r + value;
  }

  // The overloads of `serialize`, each appending field by field.
  method SerializeConnection(ft: FloatText, connect: bool) returns (bytes: Bytes)
    ensures bytes == Serialize(ft, ConnectionMessage(connect))
  {
    bytes := [];
    bytes := bytes + [TYPE_CONNECTION_MSG];
    bytes := bytes + BoolBytes(connect);
  }

  method SerializeResponse(ft: FloatText, connected: bool, fifoWrite: Bytes, fifoRead: Bytes) returns (bytes: Bytes)
    ensures bytes == Serialize(ft, ServerConnectionResponse(connected, fifoWrite, fifoRead))
  {
    bytes := [];
    bytes := bytes + [TYPE_SERVER_CONN_RESPONSE];
    bytes := bytes + BoolBytes(connected);
    bytes := AppendString(bytes, fifoWrite);
    bytes := AppendString(bytes, fifoRead);
    var tag, flag := [TYPE_SERVER_CONN_RESPONSE], BoolBytes(connected);
    Assoc(tag + flag, StringBytes(fifoWrite), StringBytes(fifoRead));
    Assoc(tag, flag, StringBytes(fifoWrite) + StringBytes(fifoRead));
  }

  method SerializeOperation(ft: FloatText, opType: Byte, tupleSize: UInt32) returns (bytes: Bytes)
    ensures bytes == Serialize(ft, OperationMessage(opType, tupleSize))
  {
    bytes := [];
    bytes := bytes + [TYPE_OPERATION_MSG];
    bytes := bytes + [opType];
    bytes := bytes + Encode(tupleSize, SIZE_32);
  }

  method AppendElem(buffer: Bytes, elem: TupleElem) returns (r: Bytes)
    ensures r == buffer + ElemBytes(elem)
  {
    match elem {
      case IntElem(i) => r := buffer + Encode(ToUnsigned(i), SIZE_32);
      case FloatElem(d) => r := buffer + Encode(d, SIZE_64);
      case StrElem(s) => r := AppendString(buffer, s);
    }
  }

  method SerializeElem(ft: FloatText, elem: TupleElem) returns (bytes: Bytes)
    ensures bytes == Serialize(ft, TupleElemMessage(elem))
  {
    bytes := [];
    bytes := bytes + [TYPE_TUPLE_ELEM];
    bytes := bytes + [ElemType(elem)];
    bytes := AppendElem(bytes, elem);
    Assoc([TYPE_TUPLE_ELEM], [ElemType(elem)], ElemBytes(elem));
  }

  method SerializePattern(ft: FloatText, p: Pattern) returns (bytes: Bytes)
    ensures bytes == Serialize(ft, PatternMessage(p))
  {
    bytes := [];
    bytes := bytes + [TYPE_TUPLE_PATTERN_ELEM];
    bytes := bytes + [ElemType(p.value)];
    var text;
    if p.op == All {
      text := OperatorText(p.op);
    } else {
      text := OperatorText(p.op) + ValueText(ft, p.value);
    }
    bytes := AppendString(bytes, text);
  }

  method SerializeMessage(ft: FloatText, m: Message) returns (bytes: Bytes)
    ensures bytes == Serialize(ft, m)
  {
    match m {
      case ConnectionMessage(c) => bytes := SerializeConnection(ft, c);
      case ServerConnectionResponse(c, w, r) => bytes := SerializeResponse(ft, c, w, r);
      case OperationMessage(op, n) => bytes := SerializeOperation(ft, op, n);
      case TupleElemMessage(e) => bytes := SerializeElem(ft, e);
      case PatternMessage(p) => bytes := SerializePattern(ft, p);
    }
  }

  // ---- Deserialising -----------------------------------------------------------------

  datatype Parsed<+T> = Done(value: T, rest: Bytes) | Failed(error: Error)

  function ReadBytes(s: Bytes, n: nat): Parsed<Bytes> {
    if |s| < n then Failed(NotEnoughBytes) else Done(s[..n], s[n..])
  }

  function ReadByte(s: Bytes): Parsed<Byte> {
    if s == [] then Failed(NotEnoughBytes) else Done(s[0], s[1..])
  }

  function ReadNumber(s: Bytes, width: nat): Parsed<nat> {
    match ReadBytes(s, width)
    case Failed(e) => Failed(e)
    case Done(bs, rest) => Done(Decode(bs), rest)
  }

  function ReadString(s: Bytes): Parsed<Bytes> {
    match ReadNumber(s, SIZE_64)
    case Failed(e) => Failed(e)
    case Done(n, rest) => ReadBytes(rest, n)
  }

  function ReadElem(s: Bytes): Parsed<TupleElem> {
    match ReadByte(s)
    case Failed(e) => Failed(e)
    case Done(t, rest) =>
      if t == ELEM_INT then
        match ReadNumber(rest, SIZE_32)
        case Failed(e) => Failed(e)
        case Done(u, rest) => Done(IntElem(ToSigned(Low32(u))), rest)
      else if t == ELEM_FLOAT then
        match ReadNumber(rest, SIZE_64)
        case Failed(e) => Failed(e)
        case Done(d, rest) => Done(FloatElem(Low64(d)), rest)
      else if t == ELEM_STRING then
        match ReadString(rest)
        case Failed(e) => Failed(e)
        case Done(v, rest) => Done(StrElem(v), rest)
      else Failed(UnknownElemType)
  }

  function BuildPattern(ft: FloatText, t: Byte, text: Bytes): Result<Pattern> {
    if t == ELEM_INT then IntPattern(text)
    else if t == ELEM_FLOAT then FloatPattern(ft, text)
    else if t == ELEM_STRING then StringPattern(text)
    else Err(UnknownElemType)
  }

  function ReadPattern(ft: FloatText, s: Bytes): Parsed<Pattern> {
    match ReadByte(s)
    case Failed(e) => Failed(e)
    case Done(t, rest) =>
      match ReadString(rest)
      case Failed(e) => Failed(e)
      case Done(text, rest) =>
        match BuildPattern(ft, t, text)
        case Err(e) => Failed(e)
        case Ok(p) => Done(p, rest)
  }

  function ReadOperation(s: Bytes): Parsed<Message> {
    match ReadByte(s)
    case Failed(e) => Failed(e)
    case Done(op, rest) =>
      match ReadNumber(rest, SIZE_32)
      case Failed(e) => Failed(e)
      case Done(n, rest) => Done(OperationMessage(op, Low32(n)), rest)
  }

  function ReadResponse(s: Bytes): Parsed<Message> {
    match ReadByte(s)
    case Failed(e) => Failed(e)
    case Done(c, rest) =>
      match ReadString(rest)
      case Failed(e) => Failed(e)
      case Done(w, rest) =>
        match ReadString(rest)
        case Failed(e) => Failed(e)
        case Done(r, rest) => Done(ServerConnectionResponse(c != 0 as char, w, r), rest)
  }

  function ReadConnection(s: Bytes): Parsed<Message> {
    match ReadByte(s)
    case Failed(e) => Failed(e)
    case Done(c, rest) => Done(ConnectionMessage(c != 0 as char), rest)
  }

  // What follows the tag t.
  function ReadBody(ft: FloatText, t: Byte, s: Bytes): Parsed<Message> {
    if t == TYPE_CONNECTION_MSG then ReadConnection(s)
    else if t == TYPE_OPERATION_MSG then ReadOperation(s)
    else if t == TYPE_TUPLE_ELEM then
      match ReadElem(s)
      case Failed(e) => Failed(e)
      case Done(v, rest) => Done(TupleElemMessage(v), rest)
    else if t == TYPE_TUPLE_PATTERN_ELEM then
      match ReadPattern(ft, s)
      case Failed(e) => Failed(e)
      case Done(p, rest) => Done(PatternMessage(p), rest)
    else ReadResponse(s)
  }

  predicate IsTag(c: Byte) {
    c in {TYPE_CONNECTION_MSG, TYPE_OPERATION_MSG, TYPE_TUPLE_ELEM, TYPE_TUPLE_PATTERN_ELEM, TYPE_SERVER_CONN_RESPONSE}
  }

  predicate TagFree(s: Bytes) {
    forall i :: 0 <= i < |s| ==> !IsTag(s[i])
  }

  // The position of the leftmost tag, or the length of s.
  function FirstTag(s: Bytes): (k: nat)
    ensures k <= |s| && TagFree(s[..k]) && (k < |s| ==> IsTag(s[k]))
  {
    if s == [] || IsTag(s[0]) then 0
    else
      var k := 1 + FirstTag(s[1..]);
      assert s[..k] == [s[0]] + s[1..][..k - 1];
      k
  }

  // Skips to the first tag and reads the message behind it.
  function Deserialize(ft: FloatText, s: Bytes): Parsed<Message> {
    var k := FirstTag(s);
    if k == |s| then Failed(NoMessageFound) else ReadBody(ft, s[k], s[k + 1..])
  }

  predicate Reads(ft: FloatText, frame: Bytes) {
    Deserialize(ft, frame).Done?
  }

  // ---- Round trip --------------------------------------------------------------------

  predicate FitsSizeT(s: Bytes) {
    |s| < 0x1_0000_0000_0000_0000
  }

  // Strings are shorter than 2^64, as every std::string is.
  predicate WellFormed(ft: FloatText, m: Message) {
    match m
    case ServerConnectionResponse(_, w, r) => FitsSizeT(w) && FitsSizeT(r)
    case TupleElemMessage(StrElem(s)) => FitsSizeT(s)
    case PatternMessage(p) => FitsSizeT(WireText(ft, p))
    case _ => true
  }

  // What the receiver gets for m: patterns are rebuilt from their text.
  function Received(ft: FloatText, m: Message): Result<Message> {
    match m
    case PatternMessage(p) =>
      (match Rebuilt(ft, p)
       case Err(e) => Err(e)
       case Ok(q) => Ok(PatternMessage(q)))
    case _ => Ok(m)
  }

  lemma NumberRoundTrip(x: nat, width: nat, rest: Bytes)
    requires x < Pow256(width)
    ensures ReadNumber(Encode(x, width) + rest, width) == Done(x, rest)
  {
    DecodeEncode(x, width);
    var s := Encode(x, width) + rest;
    assert s[..width] == Encode(x, width) && s[width..] == rest;
  }

  lemma StringRoundTrip(v: Bytes, rest: Bytes)
    requires FitsSizeT(v)
    ensures ReadString(StringBytes(v) + rest) == Done(v, rest)
  {
    assert StringBytes(v) + rest == Encode(|v|, SIZE_64) + (v + rest);
    NumberRoundTrip(|v|, SIZE_64, v + rest);
    assert (v + rest)[..|v|] == v && (v + rest)[|v|..] == rest;
  }

  lemma ElemRoundTrip(e: TupleElem, rest: Bytes)
    requires e.StrElem? ==> FitsSizeT(e.s)
    ensures ReadElem([ElemType(e)] + ElemBytes(e) + rest) == Done(e, rest)
  {
    var s := [ElemType(e)] + ElemBytes(e) + rest;
    assert s[1..] == ElemBytes(e) + rest;
    match e
    case IntElem(i) => NumberRoundTrip(ToUnsigned(i), SIZE_32, rest);
    case FloatElem(d) => NumberRoundTrip(d, SIZE_64, rest);
    case StrElem(v) => StringRoundTrip(v, rest);
  }

  lemma ConnectionRoundTrip(ft: FloatText, c: bool, rest: Bytes)
    ensures ReadBody(ft, TYPE_CONNECTION_MSG, BoolBytes(c) + rest) == Done(ConnectionMessage(c), rest)
  {
    assert (BoolBytes(c) + rest)[1..] == rest;
  }

  lemma ResponseRoundTrip(c: bool, w: Bytes, r: Bytes, rest: Bytes)
    requires FitsSizeT(w) && FitsSizeT(r)
    ensures ReadResponse(BoolBytes(c) + (StringBytes(w) + StringBytes(r)) + rest)
            == Done(ServerConnectionResponse(c, w, r), rest)
  {
    var s := BoolBytes(c) + (StringBytes(w) + StringBytes(r)) + rest;
    assert s[0] == BoolBytes(c)[0] && s[1..] == StringBytes(w) + (StringBytes(r) + rest);
    StringRoundTrip(w, StringBytes(r) + rest);
    StringRoundTrip(r, rest);
  }

  lemma OperationRoundTrip(op: Byte, n: UInt32, rest: Bytes)
    ensures ReadOperation([op] + Encode(n, SIZE_32) + rest) == Done(OperationMessage(op, n), rest)
  {
    assert ([op] + Encode(n, SIZE_32) + rest)[1..] == Encode(n, SIZE_32) + rest;
    NumberRoundTrip(n, SIZE_32, rest);
  }

  lemma PatternTextIsRead(ft: FloatText, t: Byte, text: Bytes, rest: Bytes)
    requires FitsSizeT(text)
    ensures ReadPattern(ft, [t] + StringBytes(text) + rest) ==
            match BuildPattern(ft, t, text) case Ok(q) => Done(q, rest) case Err(e) => Failed(e)
  {
    assert ([t] + StringBytes(text) + rest)[1..] == StringBytes(text) + rest;
    StringRoundTrip(text, rest);
  }

  lemma PatternRoundTrip(ft: FloatText, p: Pattern, rest: Bytes)
    requires FitsSizeT(WireText(ft, p))
    ensures ReadPattern(ft, [ElemType(p.value)] + StringBytes(WireText(ft, p)) + rest) ==
            match Rebuilt(ft, p) case Ok(q) => Done(q, rest) case Err(e) => Failed(e)
  {
    PatternTextIsRead(ft, ElemType(p.value), WireText(ft, p), rest);
    assert BuildPattern(ft, ElemType(p.value), WireText(ft, p)) == Rebuilt(ft, p);
  }

  lemma ElemBodyRoundTrip(ft: FloatText, e: TupleElem, rest: Bytes)
    requires e.StrElem? ==> FitsSizeT(e.s)
    ensures ReadBody(ft, TYPE_TUPLE_ELEM, [ElemType(e)] + ElemBytes(e) + rest) == Done(TupleElemMessage(e), rest)
  {
    ElemRoundTrip(e, rest);
  }

  lemma PatternBodyRoundTrip(ft: FloatText, p: Pattern, rest: Bytes)
    requires FitsSizeT(WireText(ft, p))
    ensures ReadBody(ft, TYPE_TUPLE_PATTERN_ELEM, [ElemType(p.value)] + StringBytes(WireText(ft, p)) + rest) ==
            match Rebuilt(ft, p) case Ok(q) => Done(PatternMessage(q), rest) case Err(e) => Failed(e)
  {
    PatternRoundTrip(ft, p, rest);
  }

  lemma BodyRoundTrip(ft: FloatText, m: Message, rest: Bytes)
    requires WellFormed(ft, m)
    ensures ReadBody(ft, Tag(m), Body(ft, m) + rest) ==
            match Received(ft, m) case Ok(r) => Done(r, rest) case Err(e) => Failed(e)
  {
    match m
    case ConnectionMessage(c) => ConnectionRoundTrip(ft, c, rest);
    case ServerConnectionResponse(c, w, r) => ResponseRoundTrip(c, w, r, rest);
    case OperationMessage(op, n) => OperationRoundTrip(op, n, rest);
    case TupleElemMessage(e) => ElemBodyRoundTrip(ft, e, rest);
    case PatternMessage(p) => PatternBodyRoundTrip(ft, p, rest);
  }

  lemma {:induction false} FirstTagBehind(prefix: Bytes, s: Bytes)
    requires TagFree(prefix)
    ensures FirstTag(prefix + s) == |prefix| + FirstTag(s)
  {
    if prefix == [] {
      assert prefix + s == s;
    } else {
      assert (prefix + s)[1..] == prefix[1..] + s;
      FirstTagBehind(prefix[1..], s);
    }
  }

  lemma TagBehind(prefix: Bytes, s: Bytes)
    requires TagFree(prefix)
    ensures FirstTag(prefix + s) == |prefix| + FirstTag(s)
    ensures FirstTag(s) < |s| ==>
      var k := FirstTag(s); var u := prefix + s;
      u[FirstTag(u)] == s[k] && u[FirstTag(u) + 1..] == s[k + 1..]
  {
    FirstTagBehind(prefix, s);
    if FirstTag(s) < |s| {
      IndexBehind(prefix, s, FirstTag(s));
    }
  }

  // Bytes without a tag are skipped.
  lemma PrefixIsSkipped(ft: FloatText, prefix: Bytes, s: Bytes)
    requires TagFree(prefix)
    ensures Deserialize(ft, prefix + s) == Deserialize(ft, s)
  {
    TagBehind(prefix, s);
  }

  lemma MessageRoundTrip(ft: FloatText, m: Message, suffix: Bytes)
    requires WellFormed(ft, m)
    ensures Deserialize(ft, Serialize(ft, m) + suffix) ==
            match Received(ft, m) case Ok(r) => Done(r, suffix) case Err(e) => Failed(e)
  {
    BodyRoundTrip(ft, m, suffix);
    BehindTag(Tag(m), Body(ft, m), suffix);
  }

  lemma BehindTag(t: Byte, body: Bytes, suffix: Bytes)
    requires IsTag(t)
    ensures var s := [t] + body + suffix; FirstTag(s) == 0 && s[0] == t && s[1..] == body + suffix
  {
  }

  /** A serialised message is found behind any bytes without a tag, read back, and the cursor is left
      exactly behind it. A pattern is read back as it is rebuilt from its text. */
  lemma CodecRoundTrip(ft: FloatText, m: Message, prefix: Bytes, suffix: Bytes)
    requires WellFormed(ft, m) && TagFree(prefix)
    ensures Deserialize(ft, prefix + Serialize(ft, m) + suffix) ==
            match Received(ft, m) case Ok(r) => Done(r, suffix) case Err(e) => Failed(e)
  {
    Assoc(prefix, Serialize(ft, m), suffix);
    PrefixIsSkipped(ft, prefix, Serialize(ft, m) + suffix);
    MessageRoundTrip(ft, m, suffix);
  }

  // ---- Prefixes ----------------------------------------------------------------------

  lemma StringPrefixFails(v: Bytes, k: nat)
    requires FitsSizeT(v) && k < |StringBytes(v)|
    ensures ReadString(StringBytes(v)[..k]).Failed?
  {
    if k >= 8 {
      assert StringBytes(v)[..k] == Encode(|v|, SIZE_64) + v[..k - 8];
      NumberRoundTrip(|v|, SIZE_64, v[..k - 8]);
    }
  }

  lemma ResponsePrefixFails(c: bool, w: Bytes, r: Bytes, k: nat)
    requires FitsSizeT(w) && FitsSizeT(r) && k < |StringBytes(w)| + |StringBytes(r)|
    ensures ReadResponse(BoolBytes(c) + (StringBytes(w) + StringBytes(r))[..k]).Failed?
  {
    var s := (StringBytes(w) + StringBytes(r))[..k];
    assert (BoolBytes(c) + s)[1..] == s;
    var n := |StringBytes(w)|;
    if k < n {
      assert s == StringBytes(w)[..k];
      StringPrefixFails(w, k);
    } else {
      assert s == StringBytes(w) + StringBytes(r)[..k - n];
      StringRoundTrip(w, StringBytes(r)[..k - n]);
      StringPrefixFails(r, k - n);
    }
  }

  lemma ElemPrefixFails(e: TupleElem, k: nat)
    requires (e.StrElem? ==> FitsSizeT(e.s)) && k < |ElemBytes(e)|
    ensures ReadElem([ElemType(e)] + ElemBytes(e)[..k]).Failed?
  {
    assert ([ElemType(e)] + ElemBytes(e)[..k])[1..] == ElemBytes(e)[..k];
    if e.StrElem? {
      StringPrefixFails(e.s, k);
    }
  }

  lemma PatternPrefixFails(ft: FloatText, p: Pattern, k: nat)
    requires FitsSizeT(WireText(ft, p)) && k < |StringBytes(WireText(ft, p))|
    ensures ReadPattern(ft, [ElemType(p.value)] + StringBytes(WireText(ft, p))[..k]).Failed?
  {
    var s := StringBytes(WireText(ft, p))[..k];
    assert ([ElemType(p.value)] + s)[1..] == s;
    StringPrefixFails(WireText(ft, p), k);
  }

  lemma PrefixBehindFirst(x: Byte, s: Bytes, k: nat)
    requires 0 < k <= |s| + 1
    ensures ([x] + s)[..k] == [x] + s[..k - 1]
  {
  }

  lemma BodyPrefixFails(ft: FloatText, m: Message, k: nat)
    requires WellFormed(ft, m) && k < |Body(ft, m)|
    ensures ReadBody(ft, Tag(m), Body(ft, m)[..k]).Failed?
  {
    if k > 0 {
      match m
      case ConnectionMessage(_) =>
      case ServerConnectionResponse(c, w, r) =>
        PrefixBehindFirst(BoolBytes(c)[0], StringBytes(w) + StringBytes(r), k);
        ResponsePrefixFails(c, w, r, k - 1);
      case OperationMessage(_, n) =>
      case TupleElemMessage(e) =>
        PrefixBehindFirst(ElemType(e), ElemBytes(e), k);
        ElemPrefixFails(e, k - 1);
      case PatternMessage(p) =>
        PrefixBehindFirst(ElemType(p.value), StringBytes(WireText(ft, p)), k);
        PatternPrefixFails(ft, p, k - 1);
    }
  }

  /** No strict prefix of a serialised message is a message. */
  lemma PrefixesFail(ft: FloatText, m: Message, k: nat)
    requires WellFormed(ft, m) && k < |Serialize(ft, m)|
    ensures Deserialize(ft, Serialize(ft, m)[..k]).Failed?
  {
    if k > 0 {
      var s := Serialize(ft, m)[..k];
      assert s[0] == Tag(m) && s[1..] == Body(ft, m)[..k - 1];
      BodyPrefixFails(ft, m, k - 1);
    }
  }

  function SerializeAll(ft: FloatText, ms: seq<Message>): Bytes {
    if ms == [] then [] else Serialize(ft, ms[0]) + SerializeAll(ft, ms[1..])
  }

  predicate Survives(ft: FloatText, m: Message) {
    WellFormed(ft, m) && Received(ft, m) == Ok(m)
  }

  /** A concatenation of serialised messages is that of one message list only. */
  lemma {:induction false} ConcatenationIsUnique(ft: FloatText, ms: seq<Message>, ns: seq<Message>)
    requires forall m :: m in ms || m in ns ==> Survives(ft, m)
    requires SerializeAll(ft, ms) == SerializeAll(ft, ns)
    ensures ms == ns
  {
    if ms != [] && ns != [] {
      assert Survives(ft, ms[0]) && Survives(ft, ns[0]);
      MessageRoundTrip(ft, ms[0], SerializeAll(ft, ms[1..]));
      MessageRoundTrip(ft, ns[0], SerializeAll(ft, ns[1..]));
      ConcatenationIsUnique(ft, ms[1..], ns[1..]);
    }
  }

  // ---- What was read could have been sent --------------------------------------------

  lemma ReadNumberInverse(s: Bytes, width: nat)
    requires ReadNumber(s, width).Done?
    ensures ReadNumber(s, width).value < Pow256(width)
    ensures s == Encode(ReadNumber(s, width).value, width) + ReadNumber(s, width).rest
  {
    DecodeBound(s[..width]);
    EncodeDecode(s[..width]);
  }

  lemma ReadStringInverse(s: Bytes)
    requires ReadString(s).Done?
    ensures FitsSizeT(ReadString(s).value) && s == StringBytes(ReadString(s).value) + ReadString(s).rest
  {
    ReadNumberInverse(s, SIZE_64);
  }

  lemma ElemBytesInverse(s: Bytes)
    requires ReadElem(s).Done?
    ensures var e := ReadElem(s).value;
      && (e.StrElem? ==> FitsSizeT(e.s))
      && s[0] == ElemType(e) && s[1..] == ElemBytes(e) + ReadElem(s).rest
  {
    if s[0] == ELEM_INT {
      ReadNumberInverse(s[1..], SIZE_32);
    } else if s[0] == ELEM_FLOAT {
      ReadNumberInverse(s[1..], SIZE_64);
    } else {
      ReadStringInverse(s[1..]);
    }
  }

  lemma ReadElemInverse(s: Bytes)
    requires ReadElem(s).Done?
    ensures ReadElem(s).value.StrElem? ==> FitsSizeT(ReadElem(s).value.s)
    ensures s == [ElemType(ReadElem(s).value)] + ElemBytes(ReadElem(s).value) + ReadElem(s).rest
  {
    ElemBytesInverse(s);
    PutBack(s, ElemBytes(ReadElem(s).value), ReadElem(s).rest);
  }

  lemma PutBack(s: Bytes, a: Bytes, b: Bytes)
    requires s != [] && s[1..] == a + b
    ensures s == [s[0]] + a + b
  {
  }

  /** Whatever is read as a tuple element was sent as that element: the bytes consumed are
      its serialised form behind bytes without a tag. */
  lemma ReadElementsWereSent(ft: FloatText, s: Bytes) returns (prefix: Bytes)
    requires Deserialize(ft, s).Done? && Deserialize(ft, s).value.TupleElemMessage?
    ensures TagFree(prefix) && WellFormed(ft, Deserialize(ft, s).value)
    ensures s == prefix + Serialize(ft, Deserialize(ft, s).value) + Deserialize(ft, s).rest
  {
    var k := FirstTag(s);
    prefix := s[..k];
    SentElem(s, k);
  }

  lemma SentElem(s: Bytes, k: nat)
    requires k < |s| && ReadElem(s[k + 1..]).Done?
    ensures var r := ReadElem(s[k + 1..]);
      && (r.value.StrElem? ==> FitsSizeT(r.value.s))
      && s == s[..k] + ([s[k]] + ([ElemType(r.value)] + ElemBytes(r.value))) + r.rest
  {
    var body := s[k + 1..];
    ReadElemInverse(body);
    var r := ReadElem(body);
    SplitAt(s, k);
    AssocBehindFirst(s[..k], s[k], [ElemType(r.value)] + ElemBytes(r.value), r.rest);
  }

  // ---- The reader --------------------------------------------------------------------

  // r and the bytes left over are what p says.
  ghost predicate Agree<T>(p: Parsed<T>, r: Result<T>, rest: Bytes) {
    match p
    case Done(v, s) => r == Ok(v) && rest == s
    case Failed(e) => r == Err(e)
  }

  // The iterator `begin` over a string of bytes.
  class Reader {
    const bytes: Bytes
    var begin: nat

    ghost predicate Valid()
      reads this
    {
      begin <= |bytes|
    }

    function Rest(): Bytes
      requires Valid()
      reads this
    {
      bytes[begin..]
    }

    constructor (bytes: Bytes)
      ensures Valid() && Rest() == bytes
    {
      this.bytes, begin := bytes, 0;
    }

    // Bounds check, copy, advance.
    method Take(n: nat) returns (r: Result<Bytes>)
      requires Valid()
      modifies this
      ensures Valid() && Agree(ReadBytes(old(Rest()), n), r, Rest())
    {
      if |bytes| - begin < n {
        return Err(NotEnoughBytes);
      }
      assert Rest()[..n] == bytes[begin..begin + n] && Rest()[n..] == bytes[begin + n..];
      r := Ok(bytes[begin..begin + n]);
      begin := begin + n;
    }

    method TakeByte() returns (r: Result<Byte>)
      requires Valid()
      modifies this
      ensures Valid() && Agree(ReadByte(old(Rest())), r, Rest())
    {
      if begin == |bytes| {
        return Err(NotEnoughBytes);
      }
      assert Rest()[1..] == bytes[begin + 1..];
      r := Ok(bytes[begin]);
      begin := begin + 1;
    }

    method TakeNumber(width: nat) returns (r: Result<nat>)
      requires Valid()
      modifies this
      ensures Valid() && Agree(ReadNumber(old(Rest()), width), r, Rest())
    {
      var bs := Take(width);
      match bs {
        case Err(e) => r := Err(e);
        case Ok(v) => r := Ok(Decode(v));
      }
    }

    method TakeString() returns (r: Result<Bytes>)
      requires Valid()
      modifies this
      ensures Valid() && Agree(ReadString(old(Rest())), r, Rest())
    {
      var size := TakeNumber(SIZE_64);
      match size {
        case Err(e) => r := Err(e);
        case Ok(n) => r := Take(n);
      }
    }

    method DeserializeConnection() returns (r: Result<Message>)
      requires Valid()
      modifies this
      ensures Valid() && Agree(ReadConnection(old(Rest())), r, Rest())
    {
      var connect := TakeByte();
      match connect {
        case Err(e) => r := Err(e);
        case Ok(c) => r := Ok(ConnectionMessage(c != 0 as char));
      }
    }

    method DeserializeResponse() returns (r: Result<Message>)
      requires Valid()
      modifies this
      ensures Valid() && Agree(ReadResponse(old(Rest())), r, Rest())
    {
      var connected := TakeByte();
      if connected.Err? {
        return Err(connected.error);
      }
      var fifoWrite := TakeString();
      if fifoWrite.Err? {
        return Err(fifoWrite.error);
      }
      var fifoRead := TakeString();
      if fifoRead.Err? {
        return Err(fifoRead.error);
      }
      r := Ok(ServerConnectionResponse(connected.value != 0 as char, fifoWrite.value, fifoRead.value));
    }

    method DeserializeOperation() returns (r: Result<Message>)
      requires Valid()
      modifies this
      ensures Valid() && Agree(ReadOperation(old(Rest())), r, Rest())
    {
      var opType := TakeByte();
      if opType.Err? {
        return Err(opType.error);
      }
      var tupleSize := TakeNumber(SIZE_32);
      match tupleSize {
        case Err(e) => r := Err(e);
        case Ok(n) => r := Ok(OperationMessage(opType.value, Low32(n)));
      }
    }

    method DeserializeElem() returns (r: Result<TupleElem>)
      requires Valid()
      modifies this
      ensures Valid() && Agree(ReadElem(old(Rest())), r, Rest())
    {
      var elemType := TakeByte();
      if elemType.Err? {
        return Err(elemType.error);
      }
      if elemType.value == ELEM_INT {
        var u := TakeNumber(SIZE_32);
        r := if u.Err? then Err(u.error) else Ok(IntElem(ToSigned(Low32(u.value))));
      } else if elemType.value == ELEM_FLOAT {
        var d := TakeNumber(SIZE_64);
        r := if d.Err? then Err(d.error) else Ok(FloatElem(Low64(d.value)));
      } else if elemType.value == ELEM_STRING {
        var s := TakeString();
        r := if s.Err? then Err(s.error) else Ok(StrElem(s.value));
      } else {
        r := Err(UnknownElemType);
      }
    }

    method DeserializePattern(ft: FloatText) returns (r: Result<Pattern>)
      requires Valid()
      modifies this
      ensures Valid() && Agree(ReadPattern(ft, old(Rest())), r, Rest())
    {
      var elemType := TakeByte();
      if elemType.Err? {
        return Err(elemType.error);
      }
      var text := TakeString();
      if text.Err? {
        return Err(text.error);
      }
      r := BuildPattern(ft, elemType.value, text.value);
    }

    method DeserializeMessage(ft: FloatText) returns (r: Result<Message>)
      requires Valid()
      modifies this
      ensures Valid() && Agree(Deserialize(ft, old(Rest())), r, Rest())
    {
      ghost var s := Rest();
      var t := FindFirstMsgType();
      if t.Err? {
        return Err(t.error);
      }
      begin := begin + 1;
      assert Rest() == s[FirstTag(s) + 1..];
      r := DeserializeBody(ft, t.value);
      assert Deserialize(ft, s) == ReadBody(ft, t.value, s[FirstTag(s) + 1..]);
    }

    method DeserializeBody(ft: FloatText, t: Byte) returns (r: Result<Message>)
      requires Valid()
      modifies this
      ensures Valid() && Agree(ReadBody(ft, t, old(Rest())), r, Rest())
    {
      if t == TYPE_CONNECTION_MSG {
        r := DeserializeConnection();
      } else if t == TYPE_OPERATION_MSG {
        r := DeserializeOperation();
      } else if t == TYPE_TUPLE_ELEM {
        var e := DeserializeElem();
        r := if e.Err? then Err(e.error) else Ok(TupleElemMessage(e.value));
      } else if t == TYPE_TUPLE_PATTERN_ELEM {
        var p := DeserializePattern(ft);
        r := if p.Err? then Err(p.error) else Ok(PatternMessage(p.value));
      } else {
        r := DeserializeResponse();
      }
    }

    // std::find: the distance to the first c, or to the end.
    method Find(c: Byte) returns (k: nat)
      requires Valid()
      ensures k <= |Rest()| && (k < |Rest()| ==> Rest()[k] == c)
      ensures forall i :: 0 <= i < k ==> Rest()[i] != c
    {
      k := 0;
      while begin + k < |bytes| && bytes[begin + k] != c
        invariant k <= |Rest()| && forall i :: 0 <= i < k ==> Rest()[i] != c
      {
        k := k + 1;
      }
    }

    // Five searches and a minimum over the map of positions, in the order of its keys.
    method FindFirstMsgType() returns (r: Result<Byte>)
      requires Valid()
      modifies this
      ensures Valid()
      ensures var k := FirstTag(old(Rest()));
        if k == |old(Rest())| then r == Err(NoMessageFound) && Rest() == old(Rest())
        else r == Ok(old(Rest())[k]) && Rest() == old(Rest())[k..]
    {
      var types := [TYPE_TUPLE_PATTERN_ELEM, TYPE_SERVER_CONN_RESPONSE, TYPE_TUPLE_ELEM,
                    TYPE_OPERATION_MSG, TYPE_CONNECTION_MSG];
      var notFound := |bytes| - begin;
      var positions: seq<nat> := [];
      for i := 0 to 5
        modifies {}
        invariant |positions| == i
        invariant forall j :: 0 <= j < i ==> positions[j] <= notFound
        invariant forall j :: 0 <= j < i && positions[j] < notFound ==> Rest()[positions[j]] == types[j]
        invariant forall j, h :: 0 <= j < i && 0 <= h < positions[j] ==> Rest()[h] != types[j]
      {
        var k := Find(types[i]);
        positions := positions + [k];
      }
      var first := 0;
      for i := 1 to 5
        invariant 0 <= first < i
        invariant forall j :: 0 <= j < i ==> positions[first] <= positions[j]
      {
        if positions[i] < positions[first] && positions[i] != notFound {
          first := i;
        }
      }
      FirstTagIs(Rest(), positions[first]) by {
        assert forall c :: IsTag(c) ==>
          c == types[0] || c == types[1] || c == types[2] || c == types[3] || c == types[4];
        assert types[first] == types[0] || types[first] == types[1] || types[first] == types[2]
            || types[first] == types[3] || types[first] == types[4];
      }
      if positions[first] == notFound {
        return Err(NoMessageFound);
      }
      begin := begin + positions[first];
      return Ok(types[first]);
    }
  }

  lemma {:induction false} FirstTagIs(s: Bytes, k: nat)
    requires k <= |s| && (k < |s| ==> IsTag(s[k])) && forall h :: 0 <= h < k ==> !IsTag(s[h])
    ensures FirstTag(s) == k
  {
    if k > 0 {
      FirstTagIs(s[1..], k - 1);
    }
  }
}
